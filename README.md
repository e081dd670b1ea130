# QDataflowCanvas: a Dafny model of the canvas core

QDataflowCanvas is a Qt graphics view that shows a dataflow graph model. The
model's nodes are drawn as boxes with a text label between a row of inlets
and a row of outlets, and its connections are drawn as lines from an outlet
to an inlet. The canvas listens to the model's notifications (node added,
removed, moved, renamed, re-ported; connection added and removed) and keeps one
visual per model entity. User gestures become commands sent back to the
model: create a node, remove it, change its text, connect two ports,
disconnect them.

This project models that bookkeeping, with the pieces the widget itself
decides:

- the text-edit and completion state machine of a node's label
  (QDataflowNodeTextLabel and QDataflowNode::enterEditMode / exitEditMode /
  itemChange);
- port-list resizing (setInletCount / setOutletCount) and the layout
  arithmetic of a node (inletsWidth, adjust, boundingRect);
- the canvas's maps, lookups, selection filters, edit-mode query, Backspace,
  display-mode flags, grid-size clamp and raiseItem over z-values;
- the outlet drag gesture (press, move, release) that ends in a connect
  command.

How the model is built:

- **Canvas.** The one mutable object is the class `Canvas.Canvas`: the
  canvas together with its scene.
  - `nodes` and `connections` are maps from model identities to visual
    records (`Visuals.NodeVisual`, `Visuals.ConnVisual`). Identities are
    natural numbers, and QMap iteration is modelled as ascending key order.
  - Methods that the source defines on a node, a port or a label take the
    node id (and the port index) as a parameter.
  - Commands sent to the model are appended to `commands`, oldest first.
  - The scene's focus item is `focus`, the node whose label holds it.
  - The scene's z-values are a map `z` from items to integers; an item with
    no entry has z-value 0.
- **Inputs.** The following are parameters or fields of the model rather
  than computations:
  - the font metrics (`metrics: string -> Extent`);
  - the scene's colliding-items relation (`overlaps`);
  - the completion provider (`completion: string -> seq<string>`, the
    shipped one returning nothing);
  - the model's canMakeConnectionTo / canAcceptConnectionFrom predicates;
  - the items under the pointer, topmost first.
- **Valid.** `Canvas.Canvas.Valid` is what the canvas maintains. Every
  method that models a whole source function and changes a field `Valid`
  reads ensures `old(Valid()) ==> Valid()`. Methods that change only the
  z-values or the command log leave those fields alone. The pieces split out
  of a source function (the hover loops `SetNodesHover` and
  `SetConnectionsHover`; the set*Count loops `ResizePorts`, `ShrinkPorts`,
  `PopPort` and `DropConnections`; the enterEditMode steps
  `EnterEditModeSteps` and `OpenEditor`) state their exact effect, and the
  methods that call them prove the invariant. The invariant says:
  - the grid size is at least 1;
  - tooltips exclude both kinds of hover feedback;
  - every node's ports sit at their own index and position;
  - every node's completion overlay is consistent;
  - every node's layout is the one adjust computes from its text and port
    counts;
  - every visual accepts hover events as its feedback flag says.

Files, one module each:

- `wrappers.dfy`: Option.
- `ids.dfy`: identities and QMap key order.
- `items.dfy`: scene items, type tags and the itemAtT hit-test.
- `geometry.dfy`: layout arithmetic.
- `ports.dfy`: port records and set*Count on a port list.
- `completion.dfy`: label completion state and cycling.
- `visuals.dfy`: node and connection records, commands, lookups, filters and
  Backspace.
- `stacking.dfy`: z-values and raiseItem.
- `editing.dfy`: the edit/completion transitions of one node.
- `connecting.dfy`: the drag gesture and connection attachment.
- `canvas.dfy`: the canvas class.

## Model

| member | source | states |
|---|---|---|
| Items.Tag | qdataflowcanvas.h:36-41 | each item class has a tag in UserType+1 .. UserType+4 |
| Items.TypeOfTag | qdataflowcanvas.h:36-41 | a type() value is read back as a kind exactly when it lies in the four tag values |
| Items.TagsAreDistinct | qdataflowcanvas.h:36-41 | the four tags are pairwise distinct and each is read back as its own kind |
| Items.TagRoundTrip | qdataflowcanvas.h:132 | every value read back as a kind is that kind's tag, so type() dispatch is a closed variant |
| Items.TypeOf | qdataflowcanvas.h:351 | the class dynamic_cast sees for an item; TypeOfTagOfItem ties it to the type() tags |
| Items.TypeOfTagOfItem | qdataflowcanvas.h:36-41 | reading back the tag of an item's class gives the item's class |
| Items.FirstOfType | qdataflowcanvas.h:345-355 | None exactly when no item has class t; otherwise the result is the earliest (topmost) item of class t |
| Items.FirstInletIsInlet | qdataflowcanvas.h:345-355 | a hit of inlet class is an inlet item |
| Items.ItemAtT | qdataflowcanvas.h:345-355 | the early-return scan returns the topmost item of class t, or None |
| Ids.SortedKeys | qdataflowcanvas.h:108-109 | the keys of a map, each once, in strictly ascending (QMap) order |
| Geometry.PortRowSpan | qdataflowcanvas.cpp:593-601 | a row of count ports spans exactly inletsWidth/outletsWidth: starts at 0, ends at 23*count-13, consecutive ports 23 apart; negative for no port |
| Geometry.BodyWidth | qdataflowcanvas.cpp:559-561 | the band width is the largest of the text width and the two port-row widths, so it is never narrower than the text |
| Geometry.BandsStack | qdataflowcanvas.cpp:559-572 | input header at y 0 with height 4, body at y 4 with the text height, output header at y 4+text height; all three at x 0 with one width |
| Geometry.PortsFitHeaders | qdataflowcanvas.cpp:476 | every inlet box lies inside the input header band and every outlet box inside the output header band |
| Geometry.BoundingRectCoversBands | qdataflowcanvas.cpp:550-556 | the bounding rect is the three bands grown by ioletHeight plus half of objectPen's width 1 on every side, that is (-4.5, -4.5, w+9, h+17), and covers each band |
| Geometry.PortsWidth | qdataflowcanvas.cpp:593-601 | the width of a row of count ports; PortRowSpan states what it measures |
| Geometry.PortPosition | qdataflowcanvas.cpp:476 | the position setInletCount / setOutletCount give port i; PortRowSpan and PortsFitHeaders place it in the row |
| Geometry.LayoutOf | qdataflowcanvas.cpp:559-571 | the three band positions and rectangles adjust sets; BandsStack states how they stack |
| Geometry.OutlinedBounds | qdataflowcanvas.cpp:552 | the bounding rect of a rectangle item outlined with a pen: its rect grown by half the pen width |
| Geometry.BoundingRect | qdataflowcanvas.cpp:550-556 | boundingRect over the body box's outlined bounds; BoundingRectCoversBands gives its value |
| Ports.AddConnection | qdataflowcanvas.cpp:735-739 | the connection is appended to the port's list; index, position and drag line unchanged |
| Ports.RemoveAll | qdataflowcanvas.cpp:741-744 | every occurrence of c is gone and every other element keeps its multiplicity; a one-element list is kept or emptied, which with RemoveAllAppend fixes the order of what remains |
| Ports.RemoveConnection | qdataflowcanvas.cpp:741-744 | the port no longer lists c, lists every other connection with the same multiplicity, and is otherwise unchanged |
| Ports.RemoveAllAppend | qdataflowcanvas.cpp:741-744 | removeAll on a concatenation is the concatenation of the two results, so the remaining elements keep their order |
| Ports.RemoveUndoesAdd | qdataflowcanvas.cpp:735-744 | removeConnection undoes addConnection of a connection the port did not hold |
| Ports.ResizedShape | qdataflowcanvas.cpp:458-482 | after set*Count(c) the list has c ports, surviving ports are unchanged, new ports have index i at position (5+23i, 2) and no connection; well-formedness is kept |
| Ports.DropsRemovePortsFromTheBack | qdataflowcanvas.cpp:460-468 | every removed port has an index in [c, length), every index in [c, length) is removed, last one first; nothing is removed when the list does not shrink |
| Ports.NewPort | qdataflowcanvas.cpp:471-478 | the port pushed at index i: position of i, no connection, no drag line; ResizedShape states its use |
| Ports.Resized | qdataflowcanvas.cpp:458-482 | the list after set*Count; ResizedShape states its shape |
| Ports.Drops | qdataflowcanvas.cpp:460-468 | the removals of the shrink loop in order; DropsRemovePortsFromTheBack, DropsRemoveConnectionsFirst and DroppedConnections state what it removes |
| Ports.DropsRemoveConnectionsFirst | qdataflowcanvas.cpp:460-468 | every connection of a removed port is taken out of the scene before the port itself |
| Ports.DroppedConnections | qdataflowcanvas.cpp:458-468 | the connections removed from the scene are exactly those attached to the dropped ports |
| Completion.DefaultComplete | qdataflowcanvas.cpp:1132-1136 | the shipped provider offers no candidate |
| Completion.Cleared | qdataflowcanvas.cpp:1026-1042 | no candidate, highlight -1, inactive, text and editing flags unchanged |
| Completion.WithCandidates | qdataflowcanvas.cpp:992-1024 | the list becomes the candidates, highlight -1, active exactly when the list is non-empty |
| Completion.CycledIndex | qdataflowcanvas.cpp:1065-1069 | the highlight after cycleCompletion(d); CycledInRange, CycleFromNone, CycleDownSteps and CycleUpUndoesDown state where it lands |
| Completion.CycledInRange | qdataflowcanvas.cpp:1063-1071 | with n >= 1 candidates the highlight always ends in [0, n) |
| Completion.CycleFromNone | qdataflowcanvas.cpp:1063-1066 | from no highlight, Down selects the first candidate and Up the last |
| Completion.CycleUpUndoesDown | qdataflowcanvas.cpp:1063-1071 | Down then Up, and Up then Down, return to the same candidate |
| Completion.CycleDownSteps | qdataflowcanvas.cpp:1063-1071 | Down moves to the next candidate wrapping last to first; Up to the previous wrapping first to last |
| Visuals.NewNodeVisual | qdataflowcanvas.cpp:410-451 | a new node has the model's text and port counts, is valid, unselected, not editing, with empty oldText_ and a consistent layout |
| Visuals.LookupNode | qdataflowcanvas.cpp:145-154 | the node visual when the id is known, None (null) exactly when it is not |
| Visuals.LookupConnection | qdataflowcanvas.cpp:156-165 | the connection visual when the id is known, None (null) exactly when it is not |
| Visuals.FilterSelectedNodes | qdataflowcanvas.cpp:117-125 | keeps exactly the in-scene selected nodes of a list, in the list's order |
| Visuals.SelectedNodes | qdataflowcanvas.cpp:117-125 | exactly the in-scene selected nodes, in ascending map order |
| Visuals.FilterSelectedConnections | qdataflowcanvas.cpp:127-135 | keeps exactly the in-scene selected connections of a list, in the list's order |
| Visuals.SelectedConnections | qdataflowcanvas.cpp:127-135 | exactly the in-scene selected connections, in ascending map order |
| Visuals.AnyInEditMode | qdataflowcanvas.cpp:137-143 | true exactly when some in-scene node of the list is in edit mode |
| Visuals.IsSomeNodeInEditMode | qdataflowcanvas.cpp:137-143 | true exactly when some in-scene node is in edit mode, i.e. the focused label's node is in scene and editable |
| Visuals.InEditMode | qdataflowcanvas.cpp:678-682 | isInEditMode: the label accepts editing and holds the focus; AtMostOneEditing and IsSomeNodeInEditMode build on it |
| Visuals.AtMostOneEditing | qdataflowcanvas.cpp:678-682 | two nodes in edit mode are the same node |
| Visuals.DisconnectCommands | qdataflowcanvas.cpp:311-315 | one disconnect per connection, from its source outlet to its destination inlet, in list order |
| Visuals.RemoveCommands | qdataflowcanvas.cpp:316-317 | one remove per node, in list order |
| Visuals.BackspaceCommands | qdataflowcanvas.cpp:306-323 | the commands Backspace issues; BackspaceLayout, BackspaceRemovesSelected, BackspaceRemovesInOrder and BackspaceEmptyIffNothingSelected state them |
| Visuals.BackspaceLayout | qdataflowcanvas.cpp:306-323 | Backspace issues the disconnects of the selected connections in map order, then the removes of the selected nodes in map order |
| Visuals.BackspaceRemovesSelected | qdataflowcanvas.cpp:306-323 | a node is removed exactly when it is in scene and selected |
| Visuals.BackspaceRemovesInOrder | qdataflowcanvas.cpp:306-323 | every remove comes after every disconnect, and removes go in ascending id order, so none is repeated |
| Visuals.BackspaceEmptyIffNothingSelected | qdataflowcanvas.cpp:306-323 | Backspace issues nothing exactly when no in-scene node or connection is selected |
| Visuals.DragPen | qdataflowcanvas.cpp:856-872 | valid pen over an inlet both predicates accept, invalid pen over an inlet they reject, temp pen over no inlet |
| Visuals.Hide | qdataflowcanvas.cpp:404-408 | the connection leaves the scene but stays in the map; every other entry is unchanged |
| Visuals.HideAll | qdataflowcanvas.cpp:463-464 | exactly the listed connections leave the scene; the map keeps its keys |
| Visuals.Adjusted | qdataflowcanvas.cpp:559-591 | adjust on the record: the layout for the text and port counts; NodeOk requires it and ResizedShape, WithText and the Keeps lemmas preserve it |
| Visuals.InletCount | qdataflowcanvas.h:126 | inletCount; PortAccessors relates it to the layout |
| Visuals.OutletCount | qdataflowcanvas.h:129 | outletCount; PortAccessors relates it to the layout |
| Visuals.Inlet | qdataflowcanvas.h:125 | inlet(i); PortAccessors states its index and position |
| Visuals.Outlet | qdataflowcanvas.h:128 | outlet(i); PortAccessors states its index and position |
| Visuals.PortAccessors | qdataflowcanvas.h:125-130 | on a well-formed node, inlet(i) and outlet(i) report index i, sit at position i inside their header band, and the body is at least as wide as both rows |
| Stacking.MaxZ | qdataflowcanvas.cpp:169-171 | the highest z-value among the colliding items, and at least 0 |
| Stacking.PortConnections | qdataflowcanvas.cpp:175-191 | exactly the connections attached to some port of the list |
| Stacking.Lift | qdataflowcanvas.cpp:167-172 | the item's z-value set above its colliding items; LiftAbove states the effect |
| Stacking.LiftConnections | qdataflowcanvas.cpp:173-192 | each connection of a list lifted in turn; LiftConnectionsFrame and LiftConnectionsAbove state the effect |
| Stacking.Raised | qdataflowcanvas.cpp:167-193 | raiseItem on the z-values; RaisedNode states the effect for a node |
| Stacking.LiftAbove | qdataflowcanvas.cpp:167-172 | the raised item ends above every other item colliding with it, at least at 1; no other z-value changes |
| Stacking.LiftConnectionsFrame | qdataflowcanvas.cpp:173-192 | raising a list of connections changes only those connections' z-values |
| Stacking.LiftConnectionsAbove | qdataflowcanvas.cpp:173-192 | each raised connection not raised again later ends above its colliding items not raised after it |
| Stacking.RaisedNode | qdataflowcanvas.cpp:167-193 | a raised node ends above every colliding item except its own connections, and only the node and those connections change z-value |
| Stacking.NewNodeUnconnected | qdataflowcanvas.cpp:410-451 | a new node has no attached connection, so raising it raises only itself |
| Editing.WithText | qdataflowcanvas.cpp:325-339 | a new document text loses the selection, recomputes the layout for the text and shows the provider's candidates for it with no highlight; ports, selection and oldText_ unchanged |
| Editing.ClearedNode | qdataflowcanvas.cpp:662 | clearCompletion on the node's label; ExitCommits states the cleared overlay |
| Editing.Settled | qdataflowcanvas.cpp:663-669 | the revert-or-commit step of exitEditMode; ExitCommits and ExitReverts state its two branches |
| Editing.Exited | qdataflowcanvas.cpp:660-676 | the record after exitEditMode; ExitCommits, ExitReverts and ExitedKeepsNodeOk state it |
| Editing.ExitCommands | qdataflowcanvas.cpp:663-668 | the setText exitEditMode issues; ExitCommits, ExitReverts and EditThenExit state when |
| Editing.Selected | qdataflowcanvas.cpp:700-706 | the record after selection; SelectionKeepsNodeOk states it stays consistent |
| Editing.Deselected | qdataflowcanvas.cpp:700-709 | the record after deselection; DeselectCommits states the commit |
| Editing.Entered | qdataflowcanvas.cpp:645-658 | the record after enterEditMode; EnterCaptures states it |
| Editing.EnterLeavesOtherEditorOpen | qdataflowcanvas.cpp:645-658 | entering edit mode on b while a is in edit mode leaves a's record unchanged and editable with its uncommitted text and completion; only the focus moves, so b is in edit mode and a is not |
| Editing.ExitFocus | qdataflowcanvas.cpp:669 | the node's label no longer holds the focus; another focus holder is unaffected |
| Editing.WithTextKeepsNodeOk | qdataflowcanvas.cpp:325-339 | a text change keeps the node's ports, overlay and layout consistent |
| Editing.ExitedKeepsNodeOk | qdataflowcanvas.cpp:660-676 | exitEditMode keeps the node consistent |
| Editing.SelectionKeepsNodeOk | qdataflowcanvas.cpp:699-709 | selecting and deselecting keep the node consistent |
| Editing.EnteredKeepsNodeOk | qdataflowcanvas.cpp:645-658 | enterEditMode keeps the node consistent |
| Editing.ExitCommits | qdataflowcanvas.cpp:660-676 | exitEditMode(false) clears the completion, keeps the text, sets oldText_ to it, stops editing, and issues setText once exactly when the text differs from oldText_ |
| Editing.ExitReverts | qdataflowcanvas.cpp:660-676 | exitEditMode(true) restores oldText_, issues no command, stops editing, and shows the provider's candidates for oldText_ (none with the shipped provider) |
| Editing.EnterCaptures | qdataflowcanvas.cpp:645-658 | enterEditMode captures oldText_, selects the node, makes the label editable with the text selected, and queries completion for the unchanged text |
| Editing.EnterThenExit | qdataflowcanvas.cpp:645-676 | entering then leaving edit mode without typing keeps the text and issues no command, whether committing or reverting |
| Editing.EditThenExit | qdataflowcanvas.cpp:645-676 | typing t in edit mode then committing issues setText(t) exactly when t differs from the text at entry; reverting restores the entry text and issues nothing |
| Editing.DeselectCommits | qdataflowcanvas.cpp:699-709 | deselecting a node commits the edit: unselected, not editing, completion inactive, oldText_ equal to the text |
| Connecting.WithDrag | qdataflowcanvas.cpp:816-847 | only the drag line of the one outlet changes |
| Connecting.ReleaseCommands | qdataflowcanvas.cpp:829-847 | release issues at most one command: connect to the topmost inlet under the pointer when there is one, whatever the predicates say, nothing otherwise |
| Connecting.Attached | qdataflowcanvas.cpp:876-890 | attaching a connection adds no node and drops none |
| Connecting.AttachedPorts | qdataflowcanvas.cpp:876-890 | the connection is appended to its source outlet and destination inlet, nothing else changes, and both nodes then list it among their attached connections |
| Connecting.AttachedKeepsNodeOk | qdataflowcanvas.cpp:735-739 | attaching keeps every node consistent |
| Connecting.WithDragKeepsNodeOk | qdataflowcanvas.cpp:816-874 | a drag line keeps the node consistent |
| Connecting.DragThrough | qdataflowcanvas.cpp:849-874 | the node after a run of drag moves showing the given pens; DragThroughOutlets and DragLeavesNoTrace state what it changes |
| Connecting.DragLeavesNoTrace | qdataflowcanvas.cpp:816-847 | press, any number of moves, then release leave the node exactly as before the press |
| Canvas.ClampedGridSize | qdataflowcanvas.cpp:260-263 | the grid size is at least 1 and equals the request whenever that is at least 1 |
| Canvas.NodesWithHover | qdataflowcanvas.cpp:228-231 | every node, and no other entry, accepts hover events as the flag says |
| Canvas.ConnectionsWithHover | qdataflowcanvas.cpp:249-252 | every connection, and no other entry, accepts hover events as the flag says |
| Canvas.Canvas.constructor | qdataflowcanvas.cpp:39-70 | an empty canvas with all display modes off, grid size 1 and the shipped completion provider, satisfying the canvas invariant |
| Canvas.Canvas.SetCompletionProvider | qdataflowcanvas.h:62 | the provider is replaced; the invariant is kept |
| Canvas.Canvas.RaiseItem | qdataflowcanvas.cpp:167-193 | the new z-values are Raised: the item lifted above its colliding items, then each connection of a node's inlets and outlets in order |
| Canvas.Canvas.HighestZ | qdataflowcanvas.cpp:169-171 | the loop computes the highest colliding z-value, at least 0 |
| Canvas.Canvas.RaisePortConnections | qdataflowcanvas.cpp:175-191 | raises each port's connections, port by port |
| Canvas.Canvas.RaiseAttached | qdataflowcanvas.cpp:175-191 | lifts the connections of the inlets, then those of the outlets, in attachment order |
| Canvas.Canvas.RaiseConnections | qdataflowcanvas.cpp:179-180 | raises the connections of one port in list order |
| Canvas.Canvas.SetShowIOletTooltips | qdataflowcanvas.cpp:200-211 | enabling tooltips turns off both hover flags and their visuals' hover; disabling touches nothing else; the mutual exclusion is kept |
| Canvas.Canvas.SetShowObjectHoverFeedback | qdataflowcanvas.cpp:218-232 | enabling it turns tooltips off; every node follows the flag; connections and their flag unchanged |
| Canvas.Canvas.SetShowConnectionHoverFeedback | qdataflowcanvas.cpp:239-253 | enabling it turns tooltips off; every connection follows the flag; nodes and their flag unchanged |
| Canvas.Canvas.SetNodesHover | qdataflowcanvas.cpp:228-231 | the set-membership loop leaves every node accepting hover exactly as the flag says, and no other field changed |
| Canvas.Canvas.SetConnectionsHover | qdataflowcanvas.cpp:249-252 | every connection accepts hover exactly as the flag says, nothing else changed |
| Canvas.Canvas.SetGridSize | qdataflowcanvas.cpp:260-263 | the grid size becomes the clamped request |
| Canvas.Canvas.SetDrawGrid | qdataflowcanvas.cpp:270-273 | the draw-grid flag becomes the request |
| Canvas.Canvas.ClearCompletion | qdataflowcanvas.cpp:1026-1042 | only the node's completion is cleared |
| Canvas.Canvas.SetCompletion | qdataflowcanvas.cpp:992-1024 | the list becomes the node's candidates with no highlight, active exactly when non-empty; the label is raised only then |
| Canvas.Canvas.CopyCandidates | qdataflowcanvas.cpp:1001-1010 | the loop yields one candidate per string of the list, in list order |
| Canvas.Canvas.Complete | qdataflowcanvas.cpp:1082-1087 | the provider's candidates for the current text are shown |
| Canvas.Canvas.ItemTextEditorTextChange | qdataflowcanvas.cpp:325-339 | the node is laid out again for its text, then its completion is queried |
| Canvas.Canvas.ChangeText | qdataflowcanvas.cpp:437 | a document change leaves the node as WithText describes |
| Canvas.Canvas.SetNodeText | qdataflowcanvas.cpp:510-515 | an unchanged text changes nothing; any other text is set and re-queries completion |
| Canvas.Canvas.CycleCompletion | qdataflowcanvas.cpp:1063-1071 | the highlight becomes CycledIndex: moved by d with wrap-around, Up from none selecting the last |
| Canvas.Canvas.Wrap | qdataflowcanvas.cpp:1067-1068 | the two while loops bring the index into [0, count) without changing it modulo count |
| Canvas.Canvas.AcceptCompletion | qdataflowcanvas.cpp:1044-1061 | a highlighted candidate becomes the text; active without highlight commits the edit; inactive only clears the completion |
| Canvas.Canvas.ExitEditMode | qdataflowcanvas.cpp:660-676 | the node becomes Exited, setText is issued when committing a changed text, the label loses the focus |
| Canvas.Canvas.SettleText | qdataflowcanvas.cpp:663-669 | revert sets oldText_ back as the text and re-queries completion; a changed text is committed with setText and captured; the invariant is kept |
| Canvas.Canvas.LeaveEditing | qdataflowcanvas.cpp:670-675 | the label of the node loses the focus, its selection and text editing; the invariant is kept |
| Canvas.Canvas.SetSelected | qdataflowcanvas.cpp:699-709 | selecting lays the node out, captures oldText_ and raises the node; deselecting commits the edit; an unchanged selection does nothing |
| Canvas.Canvas.SelectNode | qdataflowcanvas.cpp:700-706 | the node becomes Selected and is raised; the invariant is kept |
| Canvas.Canvas.DeselectNode | qdataflowcanvas.cpp:700-709 | the node becomes Deselected, the edit is committed and the label loses the focus; z-values are unchanged |
| Canvas.Canvas.EnterEditMode | qdataflowcanvas.cpp:645-658 | the node becomes Entered, its label takes the focus, no command is issued; an unselected node is raised |
| Canvas.Canvas.EnterEditModeSteps | qdataflowcanvas.cpp:645-658 | the steps of enterEditMode in order give Entered, the focus on the label, and the z-values of the raise and of the completion |
| Canvas.Canvas.OpenEditor | qdataflowcanvas.cpp:649-656 | the label accepts text editing with the whole document selected and holds the focus |
| Canvas.Canvas.NodeDoubleClick | qdataflowcanvas.cpp:718-727 | a node not in edit mode enters it and the event is accepted; otherwise nothing changes |
| Canvas.Canvas.LabelKeyPress | qdataflowcanvas.cpp:962-990 | Tab, Escape, Return, Up and Down are consumed and nothing else; Escape clears an active completion or reverts; Return takes the highlighted candidate or commits; Up/Down cycle an active completion; Tab does nothing |
| Canvas.Canvas.ResizePorts | qdataflowcanvas.cpp:458-482 | the list becomes Resized(count), the removal log is Drops, and exactly its connections leave the scene |
| Canvas.Canvas.ShrinkPorts | qdataflowcanvas.cpp:460-468 | the pop loop leaves the first count ports and logs connections-then-port from the back |
| Canvas.Canvas.PopPort | qdataflowcanvas.cpp:462-466 | the last port's connections leave the scene, then the port is dropped |
| Canvas.Canvas.DropConnections | qdataflowcanvas.cpp:463-464 | each connection of the port leaves the scene, in list order |
| Canvas.Canvas.GrowPorts | qdataflowcanvas.cpp:471-478 | the push loop appends fresh ports with the next indices |
| Canvas.Canvas.SetInletCount | qdataflowcanvas.cpp:458-482 | the inlet list becomes Resized(count), the node is laid out again, and exactly the dropped inlets' connections leave the scene |
| Canvas.Canvas.SetOutletCount | qdataflowcanvas.cpp:484-508 | the outlet list becomes Resized(count), the node is laid out again, and exactly the dropped outlets' connections leave the scene |
| Canvas.Canvas.OnNodeAdded | qdataflowcanvas.cpp:341-351 | the entry for the node is (over)written with a new in-scene visual; a node with empty text enters edit mode |
| Canvas.Canvas.InsertNode | qdataflowcanvas.cpp:343-345 | the new in-scene visual, built with the hover setting, is stored under the node; the invariant is kept |
| Canvas.Canvas.OnNodeRemoved | qdataflowcanvas.cpp:353-359 | an editing node reverts its edit, then leaves the scene but stays in the map; afterwards it is not in edit mode |
| Canvas.Canvas.OnNodeValidChanged | qdataflowcanvas.cpp:361-365 | the node's valid flag is set and it is laid out again |
| Canvas.Canvas.OnNodePosChanged | qdataflowcanvas.cpp:367-376 | a known node moves to the position; an unknown id changes nothing |
| Canvas.Canvas.OnNodeTextChanged | qdataflowcanvas.cpp:378-382 | setText on the node's visual; whether the node is in edit mode does not change |
| Canvas.Canvas.OnNodeInletCountChanged | qdataflowcanvas.cpp:384-388 | the node then has count inlets and the same outlets |
| Canvas.Canvas.OnNodeOutletCountChanged | qdataflowcanvas.cpp:390-394 | the node then has count outlets and the same inlets |
| Canvas.Canvas.OnConnectionAdded | qdataflowcanvas.cpp:396-402 | a new in-scene connection visual (over)writes the entry, is attached to both ports, and is raised |
| Canvas.Canvas.AddConnectionVisual | qdataflowcanvas.cpp:398-400 | the new in-scene, unselected visual with the canvas's hover flag is stored under the connection; the invariant is kept |
| Canvas.Canvas.AttachConnection | qdataflowcanvas.cpp:885-890 | the connection is appended to the source outlet and then to the dest inlet (Attached); the invariant is kept |
| Canvas.Canvas.OnConnectionRemoved | qdataflowcanvas.cpp:404-408 | the connection leaves the scene but stays in the map; an unknown id changes nothing |
| Canvas.Canvas.OutletPress | qdataflowcanvas.cpp:816-827 | the outlet gets a temp-pen drag line at z 10000, which is raised, then the node is raised |
| Canvas.Canvas.SetDragLine | qdataflowcanvas.cpp:820-823 | only the drag line of one outlet changes; the invariant is kept |
| Canvas.Canvas.OutletMove | qdataflowcanvas.cpp:849-874 | without a drag line nothing changes; otherwise the line takes the pen for the topmost inlet under the pointer |
| Canvas.Canvas.OutletRelease | qdataflowcanvas.cpp:829-847 | the drag line is removed and the release commands are issued |
| Canvas.Canvas.KeyPress | qdataflowcanvas.cpp:306-323 | Backspace is accepted exactly when no in-scene node is editing, and then issues the Backspace commands; otherwise nothing is issued |
| Canvas.Canvas.IssueBackspace | qdataflowcanvas.cpp:312-318 | disconnects for the selected connections, then removes for the selected nodes, are appended to the log |
| Canvas.Canvas.IssueDisconnects | qdataflowcanvas.cpp:311-315 | the loop issues the disconnect commands of the list in order |
| Canvas.Canvas.IssueRemoves | qdataflowcanvas.cpp:316-317 | the loop issues the remove commands of the list in order |
| Canvas.Canvas.CanvasDoubleClick | qdataflowcanvas.cpp:292-304 | a double click on empty canvas is accepted and issues create at the position with empty text and no ports; on an item nothing is issued |

## Left out

- Painting and styling: `paint`, `drawBackground`, `objectPen`,
  `objectBrush`, `headerBrush` and every colour. The drag line's pen is kept
  as a three-value enum.
- Float geometry: `QDataflowConnection::adjust`, `boundingRect` and `shape`
  (trigonometry), and the tooltip path. The node layout uses integers, because
  the port constants are integers and the text extent is an opaque input; the
  node's bounding rectangle, which adds half a pen width, uses reals.
- The completion popup's geometry and colours (`updateCompletion`). Only the
  candidate list, the highlight and the active flag are modelled.
- Tooltips (QDataflowTooltip). Beyond the display flag they are left out,
  including the z-value they take.
- z-values: Qt's qreal z-values are integers here.
- Grid snapping and the ItemPositionHasChanged branch of
  `QDataflowNode::itemChange`: qRound on qreal, and the model's setPos. The
  grid size and the draw flag are still stored.
- `setModel` and the signal connections it makes. The notification handlers
  are called directly, and a model notification answering a command is a
  separate call.
- The outside world: hover and focus-out events, the cursor,
  `prepareGeometryChange` and `deleteLater`.
- Qt's focus rules: the scene focus is the field `focus`, naming the node
  whose label holds it.
- The graph model: qdataflowmodel.h is not part of this model. Its
  predicates are parameters, and its commands are entries in `commands`.
- The destructor and the `ownedNodes_` / `ownedConnections_` sets. They are
  never filled in the code modelled here.
- mainwindow.h: the application shell, declarations only.
- The `sender()` cast chain of `itemTextEditorTextChange`: the node id is
  passed directly.
- Visiting order: the hover loops of the display-mode setters visit the
  entries in an unobservable order. Only their result is stated.
- Canvas.Canvas.OutletPress: pressing again without a release leaks the
  previous temporary line item in the source. The model just replaces the
  outlet's pen.
- Canvas.Canvas.SetInletCount and Canvas.Canvas.SetOutletCount take a `nat`
  count. With a negative count the source's shrink loop pops from an empty
  list, so negative counts are outside the model. This also applies to the
  count-changed handlers.
- Canvas.Canvas.ChangeText: setPlainText is taken to signal contentsChanged,
  and so to re-run the completion, on every call.
- The constructor's `skipAdjust` argument of set*Count is used only by the
  node constructor, which `Visuals.NewNodeVisual` models as one function.
- Canvas.Canvas.OnNodeRemoved, Canvas.Canvas.OnNodeValidChanged,
  Canvas.Canvas.OnNodeTextChanged, Canvas.Canvas.OnNodeInletCountChanged and
  Canvas.Canvas.OnNodeOutletCountChanged require the node to be known. In the
  source, an unknown node makes `node()` return null, which the handler then
  dereferences (qdataflowcanvas.cpp:355-356, 363-364, 380-381, 386-387,
  392-393); that undefined behaviour is outside the model.
- Canvas.Canvas.OnConnectionAdded requires both ports to exist. The
  QDataflowConnection constructor dereferences `node()` of both ends and
  indexes their port lists without a check (qdataflowcanvas.cpp:885-886), so
  an unknown node or an out-of-range port is undefined behaviour there.
- The warnings `node()` and `connection()` log for an unknown id
  (qdataflowcanvas.cpp:150, 161) are output only; the lookups return None.
- Canvas.Canvas.OnNodeAdded and Canvas.Canvas.OnConnectionAdded overwrite
  the map entry of a known id. The source then leaves the old visual in the
  scene, unreachable from the map (qdataflowcanvas.cpp:343-345, 398-400).
  The model keeps one visual per id and does not track the orphaned one.
- Canvas.Canvas.OnConnectionRemoved takes the connection out of the scene,
  as the source does. It does not detach the connection from its ports'
  lists, which the source does not do either.

## Notes on the source

- `inletsWidth` and `outletsWidth` are −13 for a row with no port.
  `Geometry.PortsWidth` keeps that, and `Geometry.BodyWidth` shows that the
  text width then decides the band width.
- `cycleCompletion` with no candidate never ends: both while loops add or
  subtract n = 0 (qdataflowcanvas.cpp:1065-1069). `Canvas.Canvas.CycleCompletion`
  and `Canvas.Canvas.Wrap` require at least one candidate. The only caller,
  sceneEvent, calls it only while the completion is active
  (qdataflowcanvas.cpp:980, 983), and an active completion has candidates
  (`Completion.Consistent`, kept by `Valid`), so the loop is not reached.
- `enterEditMode` on one node does not make another node leave edit mode.
  `setSelected(true)` (qdataflowcanvas.cpp:648) leaves the other node
  selected, and only the focus moves (qdataflowcanvas.cpp:652). The other
  node keeps its editable label, its uncommitted text and its completion
  overlay, and no setText is issued for it. This happens, for example, when
  onNodeAdded adds a node with empty text (qdataflowcanvas.cpp:347-350)
  while another node is being edited. `Editing.EnterLeavesOtherEditorOpen`
  states this. `Visuals.AtMostOneEditing` still holds, but only because there
  is one focus, not because the other editor was closed.
- Reverting an edit rewrites the label's text, and that re-runs the
  completion query, so `exitEditMode(true)` can show candidates for the old
  text again. `Editing.ExitReverts` states this as the code has it. With the
  shipped provider it comes to nothing.
