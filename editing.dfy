/**
 * The text-edit and completion state machine of one node, on the node's
 * record: what a change of the label's document, QDataflowNode::enterEditMode,
 * exitEditMode and the selection change of itemChange do to it, and the
 * commands and focus changes they produce.
 */
module Editing {
  import opened Ids
  import opened Wrappers
  import opened Geometry
  import opened Completion
  import opened Visuals

  /** The keys the label's sceneEvent and the canvas's keyPressEvent tell apart. */
  datatype Key = Tab | Escape | Return | Up | Down | Backspace | OtherKey(code: int)

  /**
   * The label's document now holds t (setPlainText, or the user typing): the
   * cursor selection is gone, and contentsChanged runs
   * itemTextEditorTextChange, that is adjust() and then complete(), which
   * shows the candidates the provider gives for t.
   */
  function WithText(v: NodeVisual, t: string, provider: Provider, metrics: string -> Extent): (r: NodeVisual)
    ensures r.textLabel.text == t && !r.textLabel.selectAll && r.textLabel.interactive == v.textLabel.interactive
    ensures r.textLabel.items == provider(t) && r.textLabel.index == -1 && (r.textLabel.active <==> provider(t) != [])
    ensures r.geometry == LayoutOf(metrics(t), |v.inlets|, |v.outlets|)
    ensures r.oldText == v.oldText && r.selected == v.selected && r.valid == v.valid && r.inScene == v.inScene
    ensures r.inlets == v.inlets && r.outlets == v.outlets && r.pos == v.pos && r.acceptsHover == v.acceptsHover
  {
    var typed := v.(textLabel := v.textLabel.(text := t, selectAll := false));
    var laidOut := Adjusted(typed, metrics);
    laidOut.(textLabel := WithCandidates(laidOut.textLabel, provider(t)))
  }

  /** clearCompletion on the node's label. */
  function ClearedNode(v: NodeVisual): (r: NodeVisual)
  {
    v.(textLabel := Cleared(v.textLabel))
  }

  /**
   * exitEditMode(revert): the completion is cleared; with revert the text
   * goes back to oldText_ (a document change, so the completion is queried
   * again), otherwise oldText_ takes the current text; then the label loses
   * its selection and stops accepting text editing.
   */
  function Exited(v: NodeVisual, revert: bool, provider: Provider, metrics: string -> Extent): (r: NodeVisual)
  {
    var settled := Settled(ClearedNode(v), revert, provider, metrics);
    settled.(textLabel := settled.textLabel.(interactive := false, selectAll := false))
  }

  /** The middle step of exitEditMode: the text reverted to oldText_, or oldText_ taking a changed text. */
  function Settled(v: NodeVisual, revert: bool, provider: Provider, metrics: string -> Extent): (r: NodeVisual)
  {
    if revert then WithText(v, v.oldText, provider, metrics)
    else if v.oldText != v.textLabel.text then v.(oldText := v.textLabel.text)
    else v
  }

  /** The model command exitEditMode(revert) issues for node n: setText when committing a changed text, nothing otherwise. */
  function ExitCommands(n: NodeId, v: NodeVisual, revert: bool): (r: seq<Command>)
  {
    if !revert && v.oldText != v.textLabel.text then [SetText(n, v.textLabel.text)] else []
  }

  /** clearFocus: the label of n gives up the focus if it holds it. */
  function ExitFocus(focus: Option<NodeId>, n: NodeId): (r: Option<NodeId>)
    ensures r != Some(n)
    ensures focus != Some(n) ==> r == focus
  {
    if focus == Some(n) then None else focus
  }

  /** The record after itemChange(ItemSelectedHasChanged, true): selected, laid out, oldText_ := text. */
  function Selected(v: NodeVisual, metrics: string -> Extent): (r: NodeVisual)
  {
    Adjusted(v.(selected := true), metrics).(oldText := v.textLabel.text)
  }

  /** The record after itemChange(ItemSelectedHasChanged, false): unselected, laid out, then exitEditMode(false). */
  function Deselected(v: NodeVisual, provider: Provider, metrics: string -> Extent): (r: NodeVisual)
  {
    Exited(Adjusted(v.(selected := false), metrics), false, provider, metrics)
  }

  /**
   * enterEditMode: oldText_ := text, the node is selected (running
   * itemChange when it was not), the label accepts editing with the whole
   * text selected, and complete() shows the candidates for the text.
   */
  function Entered(v: NodeVisual, provider: Provider, metrics: string -> Extent): (r: NodeVisual)
  {
    var captured := v.(oldText := v.textLabel.text);
    var sel := if v.selected then captured else Selected(captured, metrics);
    sel.(textLabel := WithCandidates(sel.textLabel.(interactive := true, selectAll := true), provider(v.textLabel.text)))
  }

  /** Typing keeps what the canvas maintains about a node. */
  lemma WithTextKeepsNodeOk(v: NodeVisual, t: string, provider: Provider, metrics: string -> Extent, hover: bool)
    requires NodeOk(v, metrics, hover)
    ensures NodeOk(WithText(v, t, provider, metrics), metrics, hover)
  {
  }

  /** Leaving edit mode keeps what the canvas maintains about a node. */
  lemma ExitedKeepsNodeOk(v: NodeVisual, revert: bool, provider: Provider, metrics: string -> Extent, hover: bool)
    requires NodeOk(v, metrics, hover)
    ensures NodeOk(Exited(v, revert, provider, metrics), metrics, hover)
  {
    var c := ClearedNode(v);
    assert NodeOk(c, metrics, hover);
    var s := Settled(c, revert, provider, metrics);
    if revert {
      WithTextKeepsNodeOk(c, v.oldText, provider, metrics, hover);
    }
    assert NodeOk(s, metrics, hover);
  }

  /** Selecting and deselecting keep what the canvas maintains about a node. */
  lemma SelectionKeepsNodeOk(v: NodeVisual, provider: Provider, metrics: string -> Extent, hover: bool)
    requires NodeOk(v, metrics, hover)
    ensures NodeOk(Selected(v, metrics), metrics, hover)
    ensures NodeOk(Deselected(v, provider, metrics), metrics, hover)
  {
    var a := Adjusted(v.(selected := false), metrics);
    assert NodeOk(a, metrics, hover);
    ExitedKeepsNodeOk(a, false, provider, metrics, hover);
  }

  /** Entering edit mode keeps what the canvas maintains about a node. */
  lemma EnteredKeepsNodeOk(v: NodeVisual, provider: Provider, metrics: string -> Extent, hover: bool)
    requires NodeOk(v, metrics, hover)
    ensures NodeOk(Entered(v, provider, metrics), metrics, hover)
  {
    var captured := v.(oldText := v.textLabel.text);
    assert NodeOk(captured, metrics, hover);
    SelectionKeepsNodeOk(captured, provider, metrics, hover);
  }

  /**
   * enterEditMode on node b while node a is in edit mode does not make a
   * leave it: a keeps its record, so its label stays editable with its
   * uncommitted text and its completion, and issues no setText; only the focus
   * moves to b, so a is no longer in edit mode while b is.
   */
  lemma EnterLeavesOtherEditorOpen(nodes: map<NodeId, NodeVisual>, focus: Option<NodeId>, a: NodeId, b: NodeId, provider: Provider, metrics: string -> Extent)
    requires a != b && b in nodes && InEditMode(nodes, focus, a)
    ensures var after := nodes[b := Entered(nodes[b], provider, metrics)];
      && after[a] == nodes[a]
      && after[a].textLabel.interactive && after[a].textLabel.text == nodes[a].textLabel.text
      && after[a].oldText == nodes[a].oldText && after[a].textLabel.items == nodes[a].textLabel.items
      && !InEditMode(after, Some(b), a)
      && InEditMode(after, Some(b), b)
  {
    EnterCaptures(nodes[b], provider, metrics);
  }

  /**
   * exitEditMode(false) commits: the completion is cleared, the text stays,
   * oldText_ equals the text afterwards, the label no longer accepts editing,
   * and setText is issued once exactly when the text differs from oldText_.
   */
  lemma ExitCommits(n: NodeId, v: NodeVisual, provider: Provider, metrics: string -> Extent)
    ensures var r := Exited(v, false, provider, metrics);
      && !r.textLabel.active && r.textLabel.index == -1 && r.textLabel.items == []
      && r.textLabel.text == v.textLabel.text && r.oldText == v.textLabel.text
      && !r.textLabel.interactive && !r.textLabel.selectAll
      && r.geometry == v.geometry
    ensures ExitCommands(n, v, false) == if v.oldText != v.textLabel.text then [SetText(n, v.textLabel.text)] else []
  {
  }

  /**
   * exitEditMode(true) reverts: the text is oldText_ again, no command is
   * issued, and the completion shows what the provider gives for oldText_
   * (nothing with the shipped provider).
   */
  lemma ExitReverts(n: NodeId, v: NodeVisual, provider: Provider, metrics: string -> Extent)
    ensures var r := Exited(v, true, provider, metrics);
      && r.textLabel.text == v.oldText && r.oldText == v.oldText
      && !r.textLabel.interactive && !r.textLabel.selectAll
      && r.textLabel.items == provider(v.oldText) && r.textLabel.index == -1
      && (r.textLabel.active <==> provider(v.oldText) != [])
      && r.geometry == LayoutOf(metrics(v.oldText), |v.inlets|, |v.outlets|)
    ensures ExitCommands(n, v, true) == []
    ensures provider == DefaultComplete ==> !Exited(v, true, provider, metrics).textLabel.active
  {
  }

  /**
   * enterEditMode: oldText_ captures the text, the node is selected, the
   * label accepts editing with the text selected, and shows the candidates
   * for the unchanged text with no highlight.
   */
  lemma EnterCaptures(v: NodeVisual, provider: Provider, metrics: string -> Extent)
    ensures var r := Entered(v, provider, metrics);
      && r.oldText == v.textLabel.text && r.textLabel.text == v.textLabel.text
      && r.selected && r.textLabel.interactive && r.textLabel.selectAll
      && r.textLabel.items == provider(v.textLabel.text) && r.textLabel.index == -1
      && (r.textLabel.active <==> provider(v.textLabel.text) != [])
      && r.inlets == v.inlets && r.outlets == v.outlets
  {
  }

  /**
   * Entering and leaving edit mode without typing changes nothing the model
   * sees: reverting restores the text, committing issues no command.
   */
  lemma EnterThenExit(n: NodeId, v: NodeVisual, provider: Provider, metrics: string -> Extent)
    ensures Exited(Entered(v, provider, metrics), true, provider, metrics).textLabel.text == v.textLabel.text
    ensures Exited(Entered(v, provider, metrics), false, provider, metrics).textLabel.text == v.textLabel.text
    ensures ExitCommands(n, Entered(v, provider, metrics), false) == []
    ensures ExitCommands(n, Entered(v, provider, metrics), true) == []
  {
    EnterCaptures(v, provider, metrics);
  }

  /**
   * Typing t after entering edit mode, then committing, issues setText(t)
   * exactly when t differs from the text at entry; reverting instead
   * restores the text at entry and issues nothing.
   */
  lemma EditThenExit(n: NodeId, v: NodeVisual, t: string, provider: Provider, metrics: string -> Extent)
    ensures var typed := WithText(Entered(v, provider, metrics), t, provider, metrics);
      && ExitCommands(n, typed, false) == (if t != v.textLabel.text then [SetText(n, t)] else [])
      && Exited(typed, false, provider, metrics).oldText == t
      && ExitCommands(n, typed, true) == []
      && Exited(typed, true, provider, metrics).textLabel.text == v.textLabel.text
  {
    EnterCaptures(v, provider, metrics);
  }

  /** Deselecting commits like exitEditMode(false). */
  lemma DeselectCommits(n: NodeId, v: NodeVisual, provider: Provider, metrics: string -> Extent)
    ensures var r := Deselected(v, provider, metrics);
      && !r.selected && !r.textLabel.interactive && !r.textLabel.active
      && r.textLabel.text == v.textLabel.text && r.oldText == v.textLabel.text
    ensures ExitCommands(n, Adjusted(v.(selected := false), metrics), false) == ExitCommands(n, v, false)
  {
  }
}
