/**
 * The state of a node's text label (QDataflowNodeTextLabel): the document
 * text, whether it is open for editing, and the completion overlay (the
 * candidate list, the highlighted index and the active flag).
 */
module Completion {

  /** The pluggable provider QDataflowTextCompletion::complete: candidates for a text. */
  type Provider = string -> seq<string>

  /** QDataflowTextCompletion::complete as shipped: no candidate for any text. */
  function DefaultComplete(text: string): (r: seq<string>)
    ensures r == []
  {
    []
  }

  /**
   * text: the label document's plain text.
   * interactive: the label accepts text editing (TextEditorInteraction flags).
   * selectAll: the cursor selects the whole document.
   * items, index, active: completionItems_, completionIndex_, completionActive_.
   */
  datatype Label = Label(text: string, interactive: bool, selectAll: bool, items: seq<string>, index: int, active: bool)

  /** The overlay is active exactly when it has candidates, and the highlight is -1 or a candidate index. */
  predicate Consistent(l: Label)
  {
    l.active == (|l.items| > 0) && -1 <= l.index < |l.items|
  }

  /** clearCompletion: no candidate, no highlight, inactive. */
  function Cleared(l: Label): (r: Label)
    ensures Consistent(r) && !r.active && r.index == -1 && r.items == []
    ensures r.text == l.text && r.interactive == l.interactive && r.selectAll == l.selectAll
  {
    l.(items := [], index := -1, active := false)
  }

  /** The effect of setCompletion(list) on the label state. */
  function WithCandidates(l: Label, list: seq<string>): (r: Label)
    ensures Consistent(r)
    ensures r.items == list && r.index == -1 && (r.active <==> list != [])
    ensures r.text == l.text && r.interactive == l.interactive && r.selectAll == l.selectAll
  {
    Cleared(l).(items := list, active := list != [])
  }

  /**
   * Where cycleCompletion(d) leaves the highlight among n candidates: from no
   * highlight, Up selects the last candidate; otherwise the index moves by d
   * and wraps around modulo n.
   */
  function CycledIndex(index: int, n: nat, d: int): (r: int)
    requires n >= 1
  {
    (if index == -1 && d == -1 then n - 1 else index + d) % n
  }

  /** The highlight always lands on a candidate. */
  lemma CycledInRange(index: int, n: nat, d: int)
    requires n >= 1
    ensures 0 <= CycledIndex(index, n, d) < n
  {
  }

  /** From no highlight, Down selects the first candidate and Up the last; with one candidate both select it. */
  lemma CycleFromNone(n: nat)
    requires n >= 1
    ensures CycledIndex(-1, n, 1) == 0
    ensures CycledIndex(-1, n, -1) == n - 1
    ensures n == 1 ==> CycledIndex(-1, n, 1) == 0 && CycledIndex(-1, n, -1) == 0
  {
  }

  /** Down then Up, or Up then Down, returns to the highlighted candidate. */
  lemma CycleUpUndoesDown(i: int, n: nat)
    requires n >= 1 && 0 <= i < n
    ensures CycledIndex(CycledIndex(i, n, 1), n, -1) == i
    ensures CycledIndex(CycledIndex(i, n, -1), n, 1) == i
  {
    CycleDownSteps(i, n);
    CycleDownSteps(CycledIndex(i, n, 1), n);
    CycleDownSteps(CycledIndex(i, n, -1), n);
  }

  /** With a non-empty list, each Down moves to the next candidate, wrapping from the last to the first. */
  lemma CycleDownSteps(i: int, n: nat)
    requires n >= 1 && 0 <= i < n
    ensures CycledIndex(i, n, 1) == if i == n - 1 then 0 else i + 1
    ensures CycledIndex(i, n, -1) == if i == 0 then n - 1 else i - 1
  {
    if i + 1 < n {
      RemainderUnique(i + 1, n, 0, i + 1);
    } else {
      RemainderUnique(i + 1, n, 1, 0);
    }
    if i >= 1 {
      RemainderUnique(i - 1, n, 0, i - 1);
    } else {
      RemainderUnique(i - 1, n, -1, n - 1);
    }
  }

  /** A product of two factors of at least 1 is at least the second factor. */
  lemma {:induction false} ProductAtLeast(k: int, n: int)
    requires k >= 1 && n >= 1
    ensures k * n >= n
  {
    if k > 1 {
      ProductAtLeast(k - 1, n);
      assert k * n == (k - 1) * n + n;
    }
  }

  /** The remainder is the unique r in [0, n) with a == q * n + r. */
  lemma RemainderUnique(a: int, n: int, q: int, r: int)
    requires n >= 1 && a == q * n + r && 0 <= r < n
    ensures a % n == r
  {
    var q0, r0 := a / n, a % n;
    assert a == q0 * n + r0;
    if q0 < q {
      assert (q - q0) * n == q * n - q0 * n;
      ProductAtLeast(q - q0, n);
    } else if q < q0 {
      assert (q0 - q) * n == q0 * n - q * n;
      ProductAtLeast(q0 - q, n);
    } else {
      assert q0 * n == q * n;
    }
  }

  /** Adding one period does not change a remainder. */
  lemma ModShift(a: int, n: int)
    requires n >= 1
    ensures (a + n) % n == a % n
  {
    var q, r := a / n, a % n;
    assert a + n == (q + 1) * n + r;
    RemainderUnique(a + n, n, q + 1, r);
  }
}
