/** The provenance action of updateProvenanceState: the event label chooses the
    one field of the new state that is copied into the provenance state. */
module ProvenanceUpdate {
  import opened Wrappers

  const SelectNode: string := "Select Node"
  const DeselectNode: string := "De-select Node"
  const SetDisplayCharts: string := "Set Display Charts"
  const SetMarkerSize: string := "Set Marker Size"
  const SetFontSize: string := "Set Font Size"
  const SetLabelVariable: string := "Set Label Variable"
  const SetColorVariable: string := "Set Color Variable"
  const SetSelectNeighbors: string := "Set Select Neighbors"

  /** The fields of the application state that the action can write. */
  datatype ProvState = ProvState(
    selectedNodes: seq<string>,
    displayCharts: bool,
    markerSize: real,
    fontSize: real,
    labelVariable: string,
    colorVariable: string,
    selectNeighbors: bool)

  datatype Field = SelectedNodes | DisplayCharts | MarkerSize | FontSize
                 | LabelVariable | ColorVariable | SelectNeighbors

  /** The labels that copy field `f`, one entry per `if` of the action. */
  function LabelsOf(f: Field): set<string>
  {
    match f
    case SelectedNodes => {SelectNode, DeselectNode}
    case DisplayCharts => {SetDisplayCharts}
    case MarkerSize => {SetMarkerSize}
    case FontSize => {SetFontSize}
    case LabelVariable => {SetLabelVariable}
    case ColorVariable => {SetColorVariable}
    case SelectNeighbors => {SetSelectNeighbors}
  }

  /** The label-to-field lookup: which field an event label copies, if any.
      It names field `f` exactly for the labels of `f`, and nothing for any
      string other than the eight labels the action tests for. */
  function FieldFor(eventLabel: string): (r: Option<Field>)
    ensures forall f :: r == Some(f) <==> eventLabel in LabelsOf(f)
    ensures r.Some? <==>
      eventLabel in {SelectNode, DeselectNode, SetDisplayCharts, SetMarkerSize,
                     SetFontSize, SetLabelVariable, SetColorVariable, SetSelectNeighbors}
  {
    if eventLabel == SelectNode || eventLabel == DeselectNode then Some(SelectedNodes)
    else if eventLabel == SetDisplayCharts then Some(DisplayCharts)
    else if eventLabel == SetMarkerSize then Some(MarkerSize)
    else if eventLabel == SetFontSize then Some(FontSize)
    else if eventLabel == SetLabelVariable then Some(LabelVariable)
    else if eventLabel == SetColorVariable then Some(ColorVariable)
    else if eventLabel == SetSelectNeighbors then Some(SelectNeighbors)
    else None
  }

  /** Two states agree on field `f`. */
  predicate SameAt(s: ProvState, t: ProvState, f: Field)
  {
    match f
    case SelectedNodes => s.selectedNodes == t.selectedNodes
    case DisplayCharts => s.displayCharts == t.displayCharts
    case MarkerSize => s.markerSize == t.markerSize
    case FontSize => s.fontSize == t.fontSize
    case LabelVariable => s.labelVariable == t.labelVariable
    case ColorVariable => s.colorVariable == t.colorVariable
    case SelectNeighbors => s.selectNeighbors == t.selectNeighbors
  }

  /** `s` with field `f` taken from `n`. */
  function CopyField(s: ProvState, n: ProvState, f: Field): (r: ProvState)
    ensures SameAt(r, n, f)
    ensures forall g :: g != f ==> SameAt(r, s, g)
  {
    match f
    case SelectedNodes => s.(selectedNodes := n.selectedNodes)
    case DisplayCharts => s.(displayCharts := n.displayCharts)
    case MarkerSize => s.(markerSize := n.markerSize)
    case FontSize => s.(fontSize := n.fontSize)
    case LabelVariable => s.(labelVariable := n.labelVariable)
    case ColorVariable => s.(colorVariable := n.colorVariable)
    case SelectNeighbors => s.(selectNeighbors := n.selectNeighbors)
  }

  /** The provenance state after the action for `eventLabel` with new state
      `n`: the field the label names is copied from `n` and no other changes. */
  function Updated(s: ProvState, eventLabel: string, n: ProvState): (r: ProvState)
    ensures FieldFor(eventLabel).Some? ==> SameAt(r, n, FieldFor(eventLabel).value)
    ensures forall f :: Some(f) != FieldFor(eventLabel) ==> SameAt(r, s, f)
  {
    match FieldFor(eventLabel)
    case None => s
    case Some(f) => CopyField(s, n, f)
  }

  /** States that agree on every field are equal. */
  lemma SameEverywhere(s: ProvState, t: ProvState)
    requires forall f :: SameAt(s, t, f)
    ensures s == t
  {
    assert SameAt(s, t, SelectedNodes) && SameAt(s, t, DisplayCharts) && SameAt(s, t, MarkerSize);
    assert SameAt(s, t, FontSize) && SameAt(s, t, LabelVariable) && SameAt(s, t, ColorVariable);
    assert SameAt(s, t, SelectNeighbors);
  }

  /** The number of fields on which two states differ. */
  function Differences(s: ProvState, t: ProvState): nat
  {
    (if s.selectedNodes != t.selectedNodes then 1 else 0)
    + (if s.displayCharts != t.displayCharts then 1 else 0)
    + (if s.markerSize != t.markerSize then 1 else 0)
    + (if s.fontSize != t.fontSize then 1 else 0)
    + (if s.labelVariable != t.labelVariable then 1 else 0)
    + (if s.colorVariable != t.colorVariable then 1 else 0)
    + (if s.selectNeighbors != t.selectNeighbors then 1 else 0)
  }

  /** For any label, at most one field of the provenance state changes. */
  lemma AtMostOneFieldChanges(s: ProvState, eventLabel: string, n: ProvState)
    ensures Differences(s, Updated(s, eventLabel, n)) <= 1
  {
  }

  /** A label outside the table leaves the provenance state as it was. */
  lemma UnknownLabelChangesNothing(s: ProvState, eventLabel: string, n: ProvState)
    requires FieldFor(eventLabel) == None
    ensures Updated(s, eventLabel, n) == s
  {
  }

  /** Applying the action twice with the same new state is the same as once. */
  lemma UpdateIdempotent(s: ProvState, eventLabel: string, n: ProvState)
    ensures Updated(Updated(s, eventLabel, n), eventLabel, n) == Updated(s, eventLabel, n)
  {
    var once := Updated(s, eventLabel, n);
    forall f ensures SameAt(Updated(once, eventLabel, n), once, f) {
      if Some(f) == FieldFor(eventLabel) {
        assert SameAt(once, n, f);
      }
    }
    SameEverywhere(Updated(once, eventLabel, n), once);
  }

  /** An application state object: the provenance state handed to the action,
      the new state it reads from, and the store's own state. */
  class StateObject {
    var selectedNodes: seq<string>
    var displayCharts: bool
    var markerSize: real
    var fontSize: real
    var labelVariable: string
    var colorVariable: string
    var selectNeighbors: bool
    /** The store's history; null before provenance is set up. */
    var provenance: Provenance?

    function Value(): ProvState
      reads this
    {
      ProvState(selectedNodes, displayCharts, markerSize, fontSize, labelVariable, colorVariable, selectNeighbors)
    }

    constructor FromValue(s: ProvState)
      ensures Value() == s && provenance == null
    {
      selectedNodes := s.selectedNodes;
      displayCharts := s.displayCharts;
      markerSize := s.markerSize;
      fontSize := s.fontSize;
      labelVariable := s.labelVariable;
      colorVariable := s.colorVariable;
      selectNeighbors := s.selectNeighbors;
      provenance := null;
    }

    /** The action body, on `this` as provState: one `if` per label. */
    method Act(eventLabel: string, newProvState: StateObject)
      modifies this
      ensures Value() == Updated(old(Value()), eventLabel, old(newProvState.Value()))
      ensures provenance == old(provenance)
    {
      if eventLabel == SelectNode || eventLabel == DeselectNode {
        selectedNodes := newProvState.selectedNodes;
      }
      if eventLabel == SetDisplayCharts {
        displayCharts := newProvState.displayCharts;
      }
      if eventLabel == SetMarkerSize {
        markerSize := newProvState.markerSize;
      }
      if eventLabel == SetFontSize {
        fontSize := newProvState.fontSize;
      }
      if eventLabel == SetLabelVariable {
        labelVariable := newProvState.labelVariable;
      }
      if eventLabel == SetColorVariable {
        colorVariable := newProvState.colorVariable;
      }
      if eventLabel == SetSelectNeighbors {
        selectNeighbors := newProvState.selectNeighbors;
      }
    }
  }

  /** The history store; only its current state is modelled. */
  class Provenance {
    var current: ProvState

    constructor (initial: ProvState)
      ensures current == initial
    {
      current := initial;
    }

    /** Applies the action for `eventLabel` with argument `args`: the action works
        on a copy of the current state, which becomes the new current state. */
    method Apply(eventLabel: string, args: StateObject)
      modifies this
      ensures current == Updated(old(current), eventLabel, args.Value())
    {
      var provState := new StateObject.FromValue(current);
      provState.Act(eventLabel, args);
      current := provState.Value();
    }
  }

  /** updateProvenanceState: apply the action with the store's own state as
      the new state, when provenance exists. The store's state is never written. */
  method UpdateProvenanceState(vuexState: StateObject, eventLabel: string)
    modifies if vuexState.provenance == null then {} else {vuexState.provenance}
    ensures vuexState.Value() == old(vuexState.Value())
    ensures vuexState.provenance == old(vuexState.provenance)
    ensures vuexState.provenance != null ==>
      vuexState.provenance.current == Updated(old(vuexState.provenance.current), eventLabel, vuexState.Value())
  {
    if vuexState.provenance != null {
      vuexState.provenance.Apply(eventLabel, vuexState);
    }
  }
}
