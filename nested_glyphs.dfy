/** The nested glyph of a node (drawNested): one bar per bar variable, each a
    background track and a foreground bar scaled by the network-wide maximum,
    and at most two capsule glyphs stacked in the right half of the marker.
    Drawing produces rectangle records instead of SVG elements. */
module NestedGlyphs {
  import opened Wrappers

  datatype Kind = Bar | Glyph

  /** A child element of a node's group: a rectangle of class `bar` or
      `glyph`, or any other element (marker, label), which a redraw keeps. */
  datatype Element =
    | Rect(kind: Kind, x: real, y: real, width: real, height: real, rx: real, ry: real, fill: string)
    | Other(tag: string)

  /** The attribute values of a node: numbers for bar variables, categories
      for glyph variables. */
  datatype Attributes = Attributes(numeric: map<string, real>, categorical: map<string, string>)

  const Pad: real := 5.0
  /** Top of the bar track: 16 for the label, plus padding. */
  const TrackTop: real := 21.0
  /** The track is the marker height less 16 + 5 + 5. */
  const TrackMargin: real := 26.0
  const TrackFill: string := "#FFFFFF"
  const BarFill: string := "#82b1ff"

  /* ---------------------------------------------------------------------- */
  /* Bar width and the network-wide maximum                                 */

  /** Width of one bar slot: the bars share the whole marker, or its left half
      when glyphs are drawn too. */
  function BarWidth(markerLength: real, barCount: nat, glyphCount: nat): (w: real)
    requires barCount > 0
    ensures w * barCount as real == (if glyphCount == 0 then markerLength else markerLength / 2.0)
  {
    if glyphCount == 0 then markerLength / barCount as real
    else (markerLength / 2.0) / barCount as real
  }

  /** `v` is the value of `variable` at some node of the network. */
  ghost predicate Attained(network: seq<Attributes>, variable: string, v: real)
  {
    exists i :: 0 <= i < |network| && variable in network[i].numeric && network[i].numeric[variable] == v
  }

  /** d3's max over the nodes' values of `variable`; nodes without the
      variable are skipped, and no value at all gives None (undefined). */
  function NetworkMax(network: seq<Attributes>, variable: string): (r: Option<real>)
    ensures r.None? <==> forall i :: 0 <= i < |network| ==> variable !in network[i].numeric
    ensures r.Some? ==> Attained(network, variable, r.value)
    ensures r.Some? ==> forall i :: 0 <= i < |network| && variable in network[i].numeric ==>
      network[i].numeric[variable] <= r.value
  {
    if network == [] then None
    else
      var rest := NetworkMax(network[1..], variable);
      assert forall i :: 1 <= i < |network| ==> network[i] == network[1..][i - 1];
      if variable !in network[0].numeric then
        assert rest.Some? ==> Attained(network[1..], variable, rest.value);
        rest
      else
        var v := network[0].numeric[variable];
        match rest
        case None => Some(v)
        case Some(m) =>
          assert Attained(network[1..], variable, m);
          Some(if v > m then v else m)
  }

  /** The domain maximum of a bar variable: the network maximum, or 1 when
      that maximum is 0 or absent (`max(...) || 1`). */
  function MaxValue(network: seq<Attributes>, variable: string): (m: real)
    ensures m != 0.0
    ensures forall i :: 0 <= i < |network| && variable in network[i].numeric ==>
      network[i].numeric[variable] <= m
    ensures m == 1.0 || Attained(network, variable, m)
    ensures (exists i :: 0 <= i < |network| && variable in network[i].numeric && network[i].numeric[variable] > 0.0)
      ==> Attained(network, variable, m)
    ensures (&& (exists i :: 0 <= i < |network| && variable in network[i].numeric)
             && (forall i :: 0 <= i < |network| && variable in network[i].numeric ==> network[i].numeric[variable] != 0.0))
      ==> Attained(network, variable, m)
  {
    match NetworkMax(network, variable)
    case None => 1.0
    case Some(x) => if x == 0.0 then 1.0 else x
  }

  /* ---------------------------------------------------------------------- */
  /* The rectangles of one node                                             */

  /** White background track of bar slot `i`: it runs from TrackTop down to
      5 above the bottom of the marker, and sits inside the slot
      [i * barWidth, (i + 1) * barWidth] with a margin of 5 on each side. */
  function Track(i: nat, barWidth: real, markerHeight: real): (r: Element)
    ensures r.Rect? && r.kind == Bar && r.fill == TrackFill
    ensures r.y == TrackTop && r.y + r.height == markerHeight - 5.0
    ensures r.x == i as real * barWidth + Pad && r.x + r.width + Pad == (i + 1) as real * barWidth
  {
    Rect(Bar, Pad + i as real * barWidth, TrackTop, barWidth - 10.0, markerHeight - TrackMargin, 0.0, 0.0, TrackFill)
  }

  /** Height of the foreground bar for `value` on the scale [0, maxValue] -> [0, track]. */
  function BarHeight(markerHeight: real, value: real, maxValue: real): real
    requires maxValue != 0.0
  {
    ((markerHeight - TrackMargin) * value) / maxValue
  }

  /** Coloured foreground bar of slot `i`: it stands on the bottom of its
      track, at markerHeight - 5, has the track's x and width, and its height
      is the value's share of the maximum. */
  function Foreground(i: nat, barWidth: real, markerHeight: real, value: real, maxValue: real): (r: Element)
    requires maxValue != 0.0
    ensures r.Rect? && r.kind == Bar && r.fill == BarFill
    ensures r.y + r.height == markerHeight - 5.0
    ensures r.x == Track(i, barWidth, markerHeight).x && r.width == Track(i, barWidth, markerHeight).width
    ensures r.height * maxValue == (markerHeight - TrackMargin) * value
  {
    var h := BarHeight(markerHeight, value, maxValue);
    Rect(Bar, Pad + i as real * barWidth, markerHeight - 5.0 - h, barWidth - 10.0, h, 0.0, 0.0, BarFill)
  }

  /** The arguments drawNested shares between all nodes: the marker size, the
      glyph colour scale, the bar and glyph variables, and the network whose
      maxima scale the bars. */
  datatype Layout = Layout(
    markerHeight: real,
    markerLength: real,
    colourScale: Option<string> -> string,
    barVariables: seq<string>,
    glyphVariables: seq<string>,
    network: seq<Attributes>)

  /** Every bar variable is a number at this node. */
  predicate HasBarValues(datum: Attributes, barVariables: seq<string>)
  {
    forall i :: 0 <= i < |barVariables| ==> barVariables[i] in datum.numeric
  }

  /** The width of one bar slot in this layout. */
  function SlotWidth(layout: Layout): real
    requires |layout.barVariables| > 0
  {
    BarWidth(layout.markerLength, |layout.barVariables|, |layout.glyphVariables|)
  }

  /** The two rectangles of bar variable `i`: its track, then its foreground
      bar, scaled by the variable's maximum over the whole network. */
  function BarPair(i: nat, datum: Attributes, layout: Layout): (r: seq<Element>)
    requires i < |layout.barVariables| && HasBarValues(datum, layout.barVariables)
    ensures |r| == 2
    ensures r[0] == Track(i, SlotWidth(layout), layout.markerHeight)
    ensures r[1].Rect? && r[1].height * MaxValue(layout.network, layout.barVariables[i])
         == (layout.markerHeight - TrackMargin) * datum.numeric[layout.barVariables[i]]
  {
    var w := SlotWidth(layout);
    var variable := layout.barVariables[i];
    [Track(i, w, layout.markerHeight),
     Foreground(i, w, layout.markerHeight, datum.numeric[variable], MaxValue(layout.network, variable))]
  }

  /** The rectangles of the first `n` bar variables, in drawing order. */
  function Bars(n: nat, datum: Attributes, layout: Layout): (r: seq<Element>)
    requires n <= |layout.barVariables| && HasBarValues(datum, layout.barVariables)
    ensures |r| == 2 * n
    ensures forall k :: 0 <= k < |r| ==> r[k].Rect? && r[k].kind == Bar
  {
    if n == 0 then []
    else Bars(n - 1, datum, layout) + BarPair(n - 1, datum, layout)
  }

  /** Bar variable k owns positions 2k (its track) and 2k + 1 (its foreground). */
  lemma {:induction false} BarsAt(n: nat, k: nat, datum: Attributes, layout: Layout)
    requires k < n <= |layout.barVariables| && HasBarValues(datum, layout.barVariables)
    ensures var r := Bars(n, datum, layout);
            var p := BarPair(k, datum, layout);
      r[2 * k] == p[0] && r[2 * k + 1] == p[1]
  {
    if k < n - 1 {
      BarsAt(n - 1, k, datum, layout);
    }
  }

  /** The category a node has for a glyph variable, or None (undefined). */
  function GlyphValue(datum: Attributes, variable: string): Option<string>
  {
    if variable in datum.categorical then Some(datum.categorical[variable]) else None
  }

  /** Capsule glyph of slot `i`, filled with `colour`: it starts 5 right of
      the middle of the marker, slot i + 1 starts 5 below slot i, and its
      corner radii are half the width and height of the box it is cut from. */
  function GlyphRect(i: nat, markerHeight: real, markerLength: real, colour: string): (r: Element)
    ensures r.Rect? && r.kind == Glyph && r.fill == colour
    ensures r.x == markerLength / 2.0 + Pad
    ensures r.width == markerLength / 2.0 - 15.0 && r.height == markerHeight / 2.0 - 15.0
    ensures r.y == TrackTop + i as real * (r.height + Pad)
    ensures r.rx * 2.0 == r.width + Pad && r.ry * 2.0 == r.height + Pad
  {
    Rect(Glyph,
         Pad + ((markerLength / 2.0) - 5.0 - 5.0) + 5.0 + 5.0,
         TrackTop + i as real * ((markerHeight / 2.0) - 5.0 - 5.0 - 5.0) + 5.0 * i as real,
         (markerLength / 2.0) - 5.0 - 5.0 - 5.0,
         (markerHeight / 2.0) - 5.0 - 5.0 - 5.0,
         ((markerLength / 2.0) - 5.0 - 5.0) / 2.0,
         ((markerHeight / 2.0) - 5.0 - 5.0) / 2.0,
         colour)
  }

  /** The glyph of slot `slot`: nothing when there is no glyph variable for
      that slot, otherwise one glyph coloured by the node's category. */
  function GlyphSlot(slot: nat, datum: Attributes, layout: Layout): (r: seq<Element>)
    ensures |r| == (if slot < |layout.glyphVariables| then 1 else 0)
    ensures slot < |layout.glyphVariables| ==>
      && r[0].Rect? && r[0].kind == Glyph
      && r[0].fill == layout.colourScale(GlyphValue(datum, layout.glyphVariables[slot]))
  {
    if slot < |layout.glyphVariables| then
      [GlyphRect(slot, layout.markerHeight, layout.markerLength,
                 layout.colourScale(GlyphValue(datum, layout.glyphVariables[slot])))]
    else []
  }

  /** The source draws glyph slots 0 and 1 only. */
  const GlyphSlotCount: nat := 2

  /** The glyphs of the first `n` slots. */
  function Glyphs(n: nat, datum: Attributes, layout: Layout): (r: seq<Element>)
    ensures forall k :: 0 <= k < |r| ==> r[k].Rect? && r[k].kind == Glyph
  {
    if n == 0 then []
    else Glyphs(n - 1, datum, layout) + GlyphSlot(n - 1, datum, layout)
  }

  /** The drawn glyphs are slot 0, then slot 1. */
  lemma GlyphsOfBothSlots(datum: Attributes, layout: Layout)
    ensures Glyphs(GlyphSlotCount, datum, layout) == GlyphSlot(0, datum, layout) + GlyphSlot(1, datum, layout)
  {
    var g0 := GlyphSlot(0, datum, layout);
    assert Glyphs(1, datum, layout) == [] + g0;
    assert [] + g0 == g0;
  }

  /** Everything drawNested appends to one node. */
  function Drawn(datum: Attributes, layout: Layout): seq<Element>
    requires HasBarValues(datum, layout.barVariables)
  {
    Bars(|layout.barVariables|, datum, layout) + Glyphs(GlyphSlotCount, datum, layout)
  }

  /* ---------------------------------------------------------------------- */
  /* Removing past renders                                                  */

  /** `children` without the rectangles of class `kind` (`selectAll(...).remove()`). */
  function Remove(children: seq<Element>, kind: Kind): (r: seq<Element>)
    ensures forall e :: e in r <==> e in children && !(e.Rect? && e.kind == kind)
  {
    if children == [] then []
    else
      var rest := Remove(children[1..], kind);
      assert forall e :: e in children <==> e == children[0] || e in children[1..];
      if children[0].Rect? && children[0].kind == kind then rest else [children[0]] + rest
  }

  /** The children a redraw keeps. */
  function Kept(children: seq<Element>): seq<Element>
  {
    Remove(Remove(children, Bar), Glyph)
  }

  /** A node's children after drawNested: the kept children, then the new
      drawing. Whatever the node showed before, it ends up with exactly
      2 * |barVariables| bar rectangles and min(2, |glyphVariables|) glyph
      rectangles, and its other elements are unchanged and in the same order. */
  function Redraw(children: seq<Element>, datum: Attributes, layout: Layout): (r: seq<Element>)
    requires HasBarValues(datum, layout.barVariables)
    ensures Count(r, Bar) == 2 * |layout.barVariables|
    ensures Count(r, Glyph) == (if |layout.glyphVariables| < 2 then |layout.glyphVariables| else 2)
    ensures Others(r) == Others(children)
  {
    var kept := Kept(children);
    var d := Drawn(datum, layout);
    KeptIsOthers(children);
    OthersOnlyOthers(children);
    DrawnCounts(datum, layout);
    CountAppend(kept, d, Bar);
    CountAppend(kept, d, Glyph);
    OthersAppend(kept, d);
    OthersIdempotent(children);
    kept + d
  }

  /** Number of rectangles of class `kind`. */
  function Count(children: seq<Element>, kind: Kind): nat
  {
    if children == [] then 0
    else (if children[0].Rect? && children[0].kind == kind then 1 else 0) + Count(children[1..], kind)
  }

  /** The elements that are not bar or glyph rectangles. */
  function Others(children: seq<Element>): seq<Element>
  {
    if children == [] then []
    else (if children[0].Other? then [children[0]] else []) + Others(children[1..])
  }

  /* ---------------------------------------------------------------------- */
  /* What a redraw leaves behind                                            */

  lemma {:induction false} RemoveAppend(a: seq<Element>, b: seq<Element>, kind: Kind)
    ensures Remove(a + b, kind) == Remove(a, kind) + Remove(b, kind)
  {
    if a != [] {
      assert (a + b)[1..] == a[1..] + b;
      RemoveAppend(a[1..], b, kind);
    } else {
      assert a + b == b;
    }
  }

  lemma {:induction false} CountAppend(a: seq<Element>, b: seq<Element>, kind: Kind)
    ensures Count(a + b, kind) == Count(a, kind) + Count(b, kind)
  {
    if a != [] {
      assert (a + b)[1..] == a[1..] + b;
      CountAppend(a[1..], b, kind);
    } else {
      assert a + b == b;
    }
  }

  lemma {:induction false} OthersAppend(a: seq<Element>, b: seq<Element>)
    ensures Others(a + b) == Others(a) + Others(b)
  {
    if a != [] {
      assert (a + b)[1..] == a[1..] + b;
      OthersAppend(a[1..], b);
    } else {
      assert a + b == b;
    }
  }

  /** Removing bars and then glyphs keeps exactly the other elements, in order. */
  lemma {:induction false} KeptIsOthers(children: seq<Element>)
    ensures Kept(children) == Others(children)
  {
    if children != [] {
      KeptIsOthers(children[1..]);
      var c := children[0];
      var restBars := Remove(children[1..], Bar);
      if c.Rect? && c.kind == Bar {
        assert Remove(children, Bar) == restBars;
      } else {
        assert Remove(children, Bar) == [c] + restBars;
        RemoveAppend([c], restBars, Glyph);
        assert Remove([c], Glyph) == (if c.Rect? then [] else [c]) by {
          assert [c][1..] == [];
        }
      }
    }
  }

  /** A sequence made only of rectangles of one kind. */
  predicate AllOfKind(s: seq<Element>, kind: Kind)
  {
    forall k :: 0 <= k < |s| ==> s[k].Rect? && s[k].kind == kind
  }

  lemma {:induction false} AllOfKindCounts(s: seq<Element>, kind: Kind)
    requires AllOfKind(s, kind)
    ensures Count(s, kind) == |s|
    ensures Count(s, if kind == Bar then Glyph else Bar) == 0
    ensures Others(s) == []
  {
    if s != [] {
      AllOfKindCounts(s[1..], kind);
    }
  }

  /** What drawNested appends to a node: two bar rectangles per bar variable,
      one glyph per existing glyph slot (at most two), nothing else. */
  lemma DrawnCounts(datum: Attributes, layout: Layout)
    requires HasBarValues(datum, layout.barVariables)
    ensures var d := Drawn(datum, layout);
      && Count(d, Bar) == 2 * |layout.barVariables|
      && Count(d, Glyph) == (if |layout.glyphVariables| < 2 then |layout.glyphVariables| else 2)
      && Others(d) == []
  {
    var b := Bars(|layout.barVariables|, datum, layout);
    var g := Glyphs(GlyphSlotCount, datum, layout);
    GlyphsOfBothSlots(datum, layout);
    AllOfKindCounts(b, Bar);
    AllOfKindCounts(g, Glyph);
    CountAppend(b, g, Bar);
    CountAppend(b, g, Glyph);
    OthersAppend(b, g);
  }

  /** Others keeps no rectangle. */
  lemma {:induction false} OthersOnlyOthers(children: seq<Element>)
    ensures Count(Others(children), Bar) == 0 && Count(Others(children), Glyph) == 0
  {
    if children != [] {
      OthersOnlyOthers(children[1..]);
      var head := if children[0].Other? then [children[0]] else [];
      assert head != [] ==> head[1..] == [];
      CountAppend(head, Others(children[1..]), Bar);
      CountAppend(head, Others(children[1..]), Glyph);
    }
  }

  lemma {:induction false} OthersIdempotent(children: seq<Element>)
    ensures Others(Others(children)) == Others(children)
  {
    if children != [] {
      OthersIdempotent(children[1..]);
      var head := if children[0].Other? then [children[0]] else [];
      assert head != [] ==> head[1..] == [];
      OthersAppend(head, Others(children[1..]));
    }
  }

  /** Drawing twice with the same inputs leaves the same children as drawing once. */
  lemma RedrawIdempotent(children: seq<Element>, datum: Attributes, layout: Layout)
    requires HasBarValues(datum, layout.barVariables)
    ensures var once := Redraw(children, datum, layout);
      Redraw(once, datum, layout) == once
  {
    var d := Drawn(datum, layout);
    var kept := Kept(children);
    var once := kept + d;
    DrawnCounts(datum, layout);
    KeptIsOthers(children);
    KeptIsOthers(once);
    OthersAppend(kept, d);
    OthersIdempotent(children);
    assert Kept(once) == kept;
  }

  /* ---------------------------------------------------------------------- */
  /* Geometry                                                               */

  /** Helper fact of real arithmetic for the two lemmas below, kept apart so
      that the nonlinear step is proved on its own. */
  lemma MulNonNegative(a: real, b: real)
    requires a >= 0.0 && b >= 0.0
    ensures a * b >= 0.0
  {
  }

  /** With a positive marker length, bar slot i lies wholly to the left of
      slot j for i < j (track and foreground share their x and width). */
  lemma BarsOrderedAndDisjoint(i: nat, j: nat, datum: Attributes, layout: Layout)
    requires i < j < |layout.barVariables| && HasBarValues(datum, layout.barVariables)
    requires layout.markerLength > 0.0
    ensures var pi := BarPair(i, datum, layout);
            var pj := BarPair(j, datum, layout);
      && pi[0].x == pi[1].x && pi[0].width == pi[1].width
      && pj[0].x == pj[1].x && pj[0].width == pj[1].width
      && pi[0].x + pi[0].width < pj[0].x
  {
    var w := SlotWidth(layout);
    assert w > 0.0;
    assert j as real * w - i as real * w == (j as real - i as real) * w;
    MulNonNegative(j as real - i as real - 1.0, w);
  }

  /** When glyphs are drawn, every bar ends left of the glyphs' column, which
      starts at the middle of the marker plus 5. */
  lemma BarsLeftOfGlyphs(i: nat, datum: Attributes, layout: Layout)
    requires i < |layout.barVariables| && HasBarValues(datum, layout.barVariables)
    requires |layout.glyphVariables| > 0 && layout.markerLength > 0.0
    ensures var p := BarPair(i, datum, layout);
            var g := Glyphs(GlyphSlotCount, datum, layout);
      && g != []
      && g[0].x == layout.markerLength / 2.0 + 5.0
      && p[0].x + p[0].width < g[0].x
  {
    GlyphsOfBothSlots(datum, layout);
    var n := |layout.barVariables|;
    var w := SlotWidth(layout);
    assert w * n as real == layout.markerLength / 2.0;
    assert w > 0.0;
    MulNonNegative(n as real - i as real - 1.0, w);
    assert (n as real - i as real - 1.0) * w == n as real * w - i as real * w - w;
  }

  /** Glyph slots are filled from the glyph variables, at most two: slot 0
      then slot 1, in one column, the second starting 5 below the first. */
  lemma GlyphsStacked(datum: Attributes, layout: Layout)
    ensures var g := Glyphs(GlyphSlotCount, datum, layout);
      && |g| == (if |layout.glyphVariables| < 2 then |layout.glyphVariables| else 2)
      && (forall k :: 0 <= k < |g| ==>
            g[k].Rect? && g[k].kind == Glyph
            && g[k].x == layout.markerLength / 2.0 + 5.0
            && g[k].y == TrackTop + k as real * (layout.markerHeight / 2.0 - 10.0)
            && g[k].fill == layout.colourScale(GlyphValue(datum, layout.glyphVariables[k])))
      && (|g| == 2 ==> g[0].y + g[0].height + 5.0 == g[1].y)
  {
    GlyphsOfBothSlots(datum, layout);
  }

  /** For a value between 0 and a positive maximum, the foreground bar lies
      inside its track: its height is between 0 and the track's, and its top is
      not above the track's. */
  lemma ForegroundWithinTrack(i: nat, barWidth: real, markerHeight: real, value: real, maxValue: real)
    requires 0.0 <= value <= maxValue && maxValue > 0.0
    requires markerHeight >= TrackMargin
    ensures var f := Foreground(i, barWidth, markerHeight, value, maxValue);
      && 0.0 <= f.height <= markerHeight - TrackMargin
      && f.y >= TrackTop
  {
    var track := markerHeight - TrackMargin;
    var h := BarHeight(markerHeight, value, maxValue);
    assert h * maxValue == track * value;
    assert track * maxValue >= track * value;
  }

  /** The node holding a bar variable's positive network maximum gets a bar
      that fills the whole track. */
  lemma MaximumFillsTrack(i: nat, datum: Attributes, layout: Layout)
    requires i < |layout.barVariables| && HasBarValues(datum, layout.barVariables)
    requires datum.numeric[layout.barVariables[i]] > 0.0
    requires forall k :: 0 <= k < |layout.network| && layout.barVariables[i] in layout.network[k].numeric ==>
      layout.network[k].numeric[layout.barVariables[i]] <= datum.numeric[layout.barVariables[i]]
    requires datum in layout.network
    ensures BarPair(i, datum, layout)[1].height == layout.markerHeight - TrackMargin
  {
    var variable := layout.barVariables[i];
    var k :| 0 <= k < |layout.network| && layout.network[k] == datum;
    var m := MaxValue(layout.network, variable);
    assert m == datum.numeric[variable];
  }

  /** When every node has 0 for a bar variable, the domain maximum falls back to
      1 and every foreground bar has height 0 (no division by zero). */
  lemma AllZeroGivesEmptyBars(i: nat, datum: Attributes, layout: Layout)
    requires i < |layout.barVariables| && HasBarValues(datum, layout.barVariables)
    requires forall k :: 0 <= k < |layout.network| && layout.barVariables[i] in layout.network[k].numeric ==>
      layout.network[k].numeric[layout.barVariables[i]] == 0.0
    requires datum.numeric[layout.barVariables[i]] == 0.0
    ensures MaxValue(layout.network, layout.barVariables[i]) == 1.0
    ensures BarPair(i, datum, layout)[1].height == 0.0
  {
  }

  /* ---------------------------------------------------------------------- */
  /* drawNested on the node groups                                          */

  /** The SVG group of one node: the attributes bound to it and its children. */
  class NodeGroup {
    const datum: Attributes
    var children: seq<Element>

    constructor (datum: Attributes, children: seq<Element>)
      ensures this.datum == datum && this.children == children
    {
      this.datum := datum;
      this.children := children;
    }
  }

  /** A d3 selection holds each element once. */
  predicate Distinct(groups: seq<NodeGroup>)
  {
    forall i, j :: 0 <= i < j < |groups| ==> groups[i] != groups[j]
  }

  /** `node.selectAll('.bar')` / `('.glyph')` followed by `.remove()`. */
  method RemoveAll(groups: seq<NodeGroup>, kind: Kind)
    requires Distinct(groups)
    modifies set g | g in groups
    ensures forall g :: g in groups ==> g.children == Remove(old(g.children), kind)
  {
    for k := 0 to |groups|
      invariant forall j :: 0 <= j < k ==> groups[j].children == Remove(old(groups[j].children), kind)
      invariant forall j :: k <= j < |groups| ==> groups[j].children == old(groups[j].children)
    {
      groups[k].children := Remove(groups[k].children, kind);
    }
  }

  /** Appends the track and the foreground bar of bar variable `i` to every group. */
  method AppendBar(groups: seq<NodeGroup>, i: nat, layout: Layout)
    requires Distinct(groups) && i < |layout.barVariables|
    requires forall g :: g in groups ==> HasBarValues(g.datum, layout.barVariables)
    modifies set g | g in groups
    ensures forall g :: g in groups ==> g.children == old(g.children) + BarPair(i, g.datum, layout)
  {
    var barWidth := SlotWidth(layout);
    var variable := layout.barVariables[i];
    var maxValue := MaxValue(layout.network, variable);
    for k := 0 to |groups|
      invariant forall j :: 0 <= j < k ==>
        groups[j].children == old(groups[j].children) + BarPair(i, groups[j].datum, layout)
      invariant forall j :: k <= j < |groups| ==> groups[j].children == old(groups[j].children)
    {
      var g := groups[k];
      assert g in groups;
      var track := Track(i, barWidth, layout.markerHeight);
      var bar := Foreground(i, barWidth, layout.markerHeight, g.datum.numeric[variable], maxValue);
      g.children := g.children + [track, bar];
    }
  }

  /** Appends the glyph of slot `slot` to every group. */
  method AppendGlyph(groups: seq<NodeGroup>, slot: nat, layout: Layout)
    requires Distinct(groups) && slot < |layout.glyphVariables|
    modifies set g | g in groups
    ensures forall g :: g in groups ==> g.children == old(g.children) + GlyphSlot(slot, g.datum, layout)
  {
    var variable := layout.glyphVariables[slot];
    for k := 0 to |groups|
      invariant forall j :: 0 <= j < k ==>
        groups[j].children == old(groups[j].children) + GlyphSlot(slot, groups[j].datum, layout)
      invariant forall j :: k <= j < |groups| ==> groups[j].children == old(groups[j].children)
    {
      var g := groups[k];
      var colour := layout.colourScale(GlyphValue(g.datum, variable));
      g.children := g.children + [GlyphRect(slot, layout.markerHeight, layout.markerLength, colour)];
    }
  }

  /** `barVariables.forEach`: appends the track and the foreground bar of
      every bar variable, in order, to every group. */
  method DrawBars(groups: seq<NodeGroup>, layout: Layout)
    requires Distinct(groups)
    requires forall g :: g in groups ==> HasBarValues(g.datum, layout.barVariables)
    modifies set g | g in groups
    ensures forall g :: g in groups ==>
      g.children == old(g.children) + Bars(|layout.barVariables|, g.datum, layout)
  {
    for i := 0 to |layout.barVariables|
      invariant forall g :: g in groups ==> g.children == old(g.children) + Bars(i, g.datum, layout)
    {
      AppendBar(groups, i, layout);
    }
  }

  /** `[0, 1].forEach`: appends the glyph of slot 0, then of slot 1, to every
      group, skipping a slot that has no glyph variable. */
  method DrawGlyphs(groups: seq<NodeGroup>, layout: Layout)
    requires Distinct(groups)
    modifies set g | g in groups
    ensures forall g :: g in groups ==>
      g.children == old(g.children) + Glyphs(GlyphSlotCount, g.datum, layout)
  {
    for slot := 0 to GlyphSlotCount
      invariant forall g :: g in groups ==> g.children == old(g.children) + Glyphs(slot, g.datum, layout)
    {
      if slot < |layout.glyphVariables| {
        AppendGlyph(groups, slot, layout);
      }
    }
  }

  /** drawNested: remove the past bars and glyphs of every node, append the two
      rectangles of each bar variable, then the glyphs of slots 0 and 1 where a
      glyph variable exists. Each node ends up as Redraw of what it showed. */
  method DrawNested(groups: seq<NodeGroup>, layout: Layout)
    requires Distinct(groups)
    requires forall g :: g in groups ==> HasBarValues(g.datum, layout.barVariables)
    modifies set g | g in groups
    ensures forall g :: g in groups ==> g.children == Redraw(old(g.children), g.datum, layout)
  {
    RemoveAll(groups, Bar);
    RemoveAll(groups, Glyph);
    DrawBars(groups, layout);
    DrawGlyphs(groups, layout);
  }
}
