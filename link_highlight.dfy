/** Which links are drawn muted for the current node selection (highlightLinks). */
module LinkHighlight {
  import opened Graph

  /** A link touches the selection when one of its ends is a selected node. */
  predicate Touches(l: Link, selected: set<string>)
  {
    l.source in selected || l.target in selected
  }

  /** The ids of the links that touch the selection, with the placeholder ""
      in the position of every other link. */
  function LinksToHighlight(links: seq<Link>, selected: set<string>): (r: seq<string>)
    ensures |r| == |links|
    ensures forall i :: 0 <= i < |r| ==> (Touches(links[i], selected) ==> r[i] == links[i].id)
    ensures forall i :: 0 <= i < |r| ==> (!Touches(links[i], selected) ==> r[i] == "")
    ensures forall id :: id != "" ==>
      (id in r <==> exists i :: 0 <= i < |links| && Touches(links[i], selected) && links[i].id == id)
  {
    seq(|links|, i requires 0 <= i < |links| => if Touches(links[i], selected) then links[i].id else "")
  }

  /** The `muted` class of each link: set when something is selected and the
      link's id is not among the ids to highlight. */
  function HighlightLinks(links: seq<Link>, selected: set<string>): (muted: seq<bool>)
    ensures |muted| == |links|
    ensures selected == {} ==> forall i :: 0 <= i < |muted| ==> !muted[i]
  {
    var toHighlight := LinksToHighlight(links, selected);
    seq(|links|, i requires 0 <= i < |links| => |selected| > 0 && links[i].id !in toHighlight)
  }

  /** Link ids are non-empty and distinct. */
  predicate WellIdentified(links: seq<Link>)
  {
    && (forall i :: 0 <= i < |links| ==> links[i].id != "")
    && (forall i, j :: 0 <= i < j < |links| ==> links[i].id != links[j].id)
  }

  /** With well-identified links, a link is muted exactly when the selection is
      non-empty and neither of its ends is selected. */
  lemma MutedIff(links: seq<Link>, selected: set<string>, i: nat)
    requires WellIdentified(links)
    requires i < |links|
    ensures HighlightLinks(links, selected)[i]
        <==> selected != {} && links[i].source !in selected && links[i].target !in selected
  {
    var toHighlight := LinksToHighlight(links, selected);
    if Touches(links[i], selected) {
      assert toHighlight[i] == links[i].id;
    } else {
      forall j | 0 <= j < |links| ensures toHighlight[j] != links[i].id {
        if j != i && Touches(links[j], selected) {
          assert j < i || i < j;
        }
      }
    }
  }

  /** The three-node example: links A-B and B-C with A selected; A-B stays
      active and B-C is muted. */
  lemma ChainExample()
    ensures HighlightLinks([Link("AB", "A", "B"), Link("BC", "B", "C")], {"A"}) == [false, true]
  {
    var links := [Link("AB", "A", "B"), Link("BC", "B", "C")];
    var muted := HighlightLinks(links, {"A"});
    MutedIff(links, {"A"}, 0);
    MutedIff(links, {"A"}, 1);
  }

  /** Why MutedIff needs non-empty ids: a link whose id is "" is never muted
      once some other link is left out of the highlight, because the
      placeholder "" then appears among the ids to highlight. */
  lemma PlaceholderIdIsNeverMuted(links: seq<Link>, selected: set<string>, i: nat, j: nat)
    requires i < |links| && j < |links|
    requires links[i].id == "" && !Touches(links[j], selected)
    ensures !HighlightLinks(links, selected)[i]
  {
    assert LinksToHighlight(links, selected)[j] == "";
  }
}
