/**
 * What one task row renders, and the list of rows the task tab renders.
 * Class attributes are modelled as lists of class tokens.
 */
module TaskView {
  import opened Tasks

  datatype Option<T> = None | Some(value: T)

  /** A rendered row: its key, its classes, the controls shown and its content. */
  datatype Card = Card(
    key: string,
    blockClasses: seq<string>,
    titleClasses: seq<string>,
    showCheckbox: bool,
    checked: bool,
    showDelete: bool,
    title: string,
    icon: Kind)

  function TitleClasses(status: bool): seq<string> {
    ["truncate", "w-52"] + (if status then ["line-through"] else [])
  }

  function BlockClasses(status: bool): seq<string> {
    [if status then "bg-gray-100" else "bg-white"]
  }

  /** A task row: nothing for a done task in focus mode, otherwise a card. */
  function Render(t: Task, isFocusMode: bool): (r: Option<Card>)
    ensures r.None? <==> isFocusMode && t.status
    ensures r.Some? ==> r.value.key == t.id && r.value.title == t.title && r.value.icon == t.icon
    ensures r.Some? ==> r.value.checked == t.status
  {
    if isFocusMode && t.status then None
    else Some(Card(t.id, BlockClasses(t.status), TitleClasses(t.status),
                   !isFocusMode, t.status, !isFocusMode, t.title, t.icon))
  }

  /** Outside focus mode every task renders; in focus mode exactly the undone ones do. */
  lemma RenderedWhen(t: Task, isFocusMode: bool)
    ensures !isFocusMode ==> Render(t, isFocusMode).Some?
    ensures isFocusMode ==> (Render(t, isFocusMode).Some? <==> !t.status)
  {
  }

  /** The title is struck through exactly when the task is done. */
  lemma LineThroughIffDone(t: Task, isFocusMode: bool)
    requires Render(t, isFocusMode).Some?
    ensures "line-through" in Render(t, isFocusMode).value.titleClasses <==> t.status
  {
    assert "line-through" != "truncate" && "line-through" != "w-52" by {
      assert "line-through"[0] != "truncate"[0];
      assert |"line-through"| != |"w-52"|;
    }
  }

  /** The row background is gray exactly when the task is done, white otherwise. */
  lemma GrayIffDone(t: Task, isFocusMode: bool)
    requires Render(t, isFocusMode).Some?
    ensures "bg-gray-100" in Render(t, isFocusMode).value.blockClasses <==> t.status
    ensures "bg-white" in Render(t, isFocusMode).value.blockClasses <==> !t.status
  {
    assert "bg-gray-100" != "bg-white" by {
      assert "bg-gray-100"[3] != "bg-white"[3];
    }
  }

  /** The checkbox and the delete button appear exactly outside focus mode. */
  lemma ControlsOutsideFocus(t: Task, isFocusMode: bool)
    requires Render(t, isFocusMode).Some?
    ensures Render(t, isFocusMode).value.showCheckbox <==> !isFocusMode
    ensures Render(t, isFocusMode).value.showDelete <==> !isFocusMode
  {
  }

  /** The rows of a list: React drops the rows that render nothing. */
  function RenderList(ts: seq<Task>, isFocusMode: bool): (r: seq<Card>)
    ensures |r| <= |ts|
    ensures forall c :: c in r ==> exists t :: t in ts && Render(t, isFocusMode) == Some(c)
  {
    if ts == [] then []
    else
      var rest := RenderList(ts[1..], isFocusMode);
      match Render(ts[0], isFocusMode)
      case None => rest
      case Some(c) => [c] + rest
  }

  /** The undone tasks, in order. */
  function Undone(ts: seq<Task>): (r: seq<Task>)
    ensures forall i :: 0 <= i < |r| ==> !r[i].status
    ensures forall t :: t in ts && !t.status <==> t in r
  {
    if ts == [] then []
    else (if ts[0].status then [] else [ts[0]]) + Undone(ts[1..])
  }

  /** The row of a task that renders. */
  function CardOf(t: Task, isFocusMode: bool): Card
    requires !(isFocusMode && t.status)
  {
    Render(t, isFocusMode).value
  }

  /** Outside focus mode there is one row per task, in order. */
  lemma {:induction false} AllRowsOutsideFocus(ts: seq<Task>)
    ensures |RenderList(ts, false)| == |ts|
    ensures forall i :: 0 <= i < |ts| ==> RenderList(ts, false)[i] == CardOf(ts[i], false)
  {
    if ts != [] {
      AllRowsOutsideFocus(ts[1..]);
    }
  }

  /** In focus mode the rows are those of the undone tasks, in order. */
  lemma {:induction false} FocusRowsAreUndone(ts: seq<Task>)
    ensures |RenderList(ts, true)| == |Undone(ts)|
    ensures forall i :: 0 <= i < |Undone(ts)| ==> RenderList(ts, true)[i] == CardOf(Undone(ts)[i], true)
  {
    if ts != [] {
      FocusRowsAreUndone(ts[1..]);
      var rest, undone := RenderList(ts[1..], true), Undone(ts[1..]);
      if ts[0].status {
        assert RenderList(ts, true) == rest && Undone(ts) == undone;
      } else {
        assert RenderList(ts, true) == [CardOf(ts[0], true)] + rest;
        assert Undone(ts) == [ts[0]] + undone;
      }
    }
  }

  /** In focus mode no done task has a row. */
  lemma FocusHidesDone(ts: seq<Task>)
    ensures forall c :: c in RenderList(ts, true) ==> !c.checked
  {
  }

  /** Two tasks, the first done: focus mode renders only the second, otherwise both. */
  lemma FocusExample(a: Task, b: Task)
    requires a.status && !b.status
    ensures |RenderList([a, b], true)| == 1 && RenderList([a, b], true)[0].key == b.id
    ensures |RenderList([a, b], false)| == 2
  {
    assert [a, b][1..] == [b];
    assert [b][1..] == [];
  }
}
