/**
 A cursor over a linear edit history: what the undo and redo stacks of
 `app_definition_document.rs` mean, and the laws that hold over any sequence
 of changes and moves.
 */
module EditHistory {
  /** `past` and `future` are stacks, most recent on top, around the present content. */
  datatype Cursor<T> = Cursor(past: seq<T>, present: T, future: seq<T>)

  function Reverse<T>(s: seq<T>): (r: seq<T>)
    ensures |r| == |s| && forall i :: 0 <= i < |s| ==> r[i] == s[|s| - 1 - i]
  {
    if s == [] then [] else [s[|s| - 1]] + Reverse(s[..|s| - 1])
  }

  /** The whole history, oldest first; the present stands at index `|past|`. */
  function Line<T>(c: Cursor<T>): seq<T> {
    c.past + [c.present] + Reverse(c.future)
  }

  function Change<T>(c: Cursor<T>, next: T): Cursor<T> {
    Cursor(c.past + [c.present], next, [])
  }

  function Back<T>(c: Cursor<T>): Cursor<T> {
    if c.past == [] then c
    else Cursor(c.past[..|c.past| - 1], c.past[|c.past| - 1], c.future + [c.present])
  }

  function Forward<T>(c: Cursor<T>): Cursor<T> {
    if c.future == [] then c
    else Cursor(c.past + [c.present], c.future[|c.future| - 1], c.future[..|c.future| - 1])
  }

  function ChangeAll<T>(c: Cursor<T>, nexts: seq<T>): Cursor<T>
    decreases |nexts|
  {
    if nexts == [] then c else ChangeAll(Change(c, nexts[0]), nexts[1..])
  }

  function BackTimes<T>(c: Cursor<T>, n: nat): Cursor<T> {
    if n == 0 then c else Back(BackTimes(c, n - 1))
  }

  function ForwardTimes<T>(c: Cursor<T>, n: nat): Cursor<T> {
    if n == 0 then c else Forward(ForwardTimes(c, n - 1))
  }

  /** A change keeps the history up to the present, drops what lay ahead, and appends the new content. */
  lemma ChangeTruncatesThenExtends<T>(c: Cursor<T>, next: T)
    ensures Line(Change(c, next)) == Line(c)[..|c.past| + 1] + [next]
  {
    assert Reverse<T>([]) == [];
    assert Line(c)[..|c.past| + 1] == c.past + [c.present];
  }

  lemma BackMovesAlongTheLine<T>(c: Cursor<T>)
    requires c.past != []
    ensures Line(Back(c)) == Line(c) && |Back(c).past| == |c.past| - 1
  {
    var b := Back(c);
    assert b.future[..|b.future| - 1] == c.future;
    assert Reverse(b.future) == [c.present] + Reverse(c.future);
    assert c.past == b.past + [b.present];
  }

  lemma ForwardUndoesBack<T>(c: Cursor<T>)
    ensures c.past != [] ==> Forward(Back(c)) == c
    ensures c.future != [] ==> Back(Forward(c)) == c
  {
    if c.past != [] {
      var b := Back(c);
      assert b.past + [b.present] == c.past && b.future[..|b.future| - 1] == c.future;
    }
    if c.future != [] {
      var f := Forward(c);
      assert f.future + [f.present] == c.future && f.past[..|f.past| - 1] == c.past;
    }
  }

  lemma ForwardMovesAlongTheLine<T>(c: Cursor<T>)
    requires c.future != []
    ensures Line(Forward(c)) == Line(c) && |Forward(c).past| == |c.past| + 1
  {
    ForwardUndoesBack(c);
    BackMovesAlongTheLine(Forward(c));
  }

  datatype Move = Undo | Redo

  function MoveAll<T>(c: Cursor<T>, moves: seq<Move>): Cursor<T>
    decreases |moves|
  {
    if moves == [] then c
    else MoveAll(if moves[0].Undo? then Back(c) else Forward(c), moves[1..])
  }

  /** Undo and redo in any order never alter the history; they only choose which of its contents is shown. */
  lemma {:induction false} MovesStayOnTheLine<T>(c: Cursor<T>, moves: seq<Move>)
    ensures var m := MoveAll(c, moves);
            Line(m) == Line(c) && m.present == Line(c)[|m.past|]
    decreases |moves|
  {
    if moves != [] {
      if moves[0].Undo? && c.past != [] {
        BackMovesAlongTheLine(c);
      } else if moves[0].Redo? && c.future != [] {
        ForwardMovesAlongTheLine(c);
      }
      MovesStayOnTheLine(if moves[0].Undo? then Back(c) else Forward(c), moves[1..]);
    }
  }

  lemma {:induction false} ChangeAllSplitsLast<T>(c: Cursor<T>, nexts: seq<T>, last: T)
    ensures ChangeAll(c, nexts + [last]) == Change(ChangeAll(c, nexts), last)
    decreases |nexts|
  {
    if nexts == [] {
      assert nexts + [last] == [last] && [last][1..] == [];
      assert ChangeAll(c, [last]) == ChangeAll(Change(c, last), []);
    } else {
      assert (nexts + [last])[1..] == nexts[1..] + [last];
      ChangeAllSplitsLast(Change(c, nexts[0]), nexts[1..], last);
    }
  }

  lemma {:induction false} BackTimesFromTop<T>(c: Cursor<T>, n: nat)
    ensures BackTimes(c, n + 1) == BackTimes(Back(c), n)
  {
    if n > 0 {
      BackTimesFromTop(c, n - 1);
    }
  }

  /** As many undos as changes bring back the content and everything before it. */
  lemma {:induction false} UndosRestore<T>(c: Cursor<T>, nexts: seq<T>)
    ensures var u := BackTimes(ChangeAll(c, nexts), |nexts|);
            u.present == c.present && u.past == c.past
    decreases |nexts|
  {
    if nexts != [] {
      var n, last := |nexts| - 1, nexts[|nexts| - 1];
      var init := nexts[..n];
      assert nexts == init + [last];
      ChangeAllSplitsLast(c, init, last);
      var before := ChangeAll(c, init);
      var stepped := Back(Change(before, last));
      assert stepped == Cursor(before.past, before.present, [last]);
      BackTimesFromTop(ChangeAll(c, nexts), n);
      BackTimesIgnoresTheFuture(before, stepped, n);
      UndosRestore(c, init);
    }
  }

  lemma {:induction false} ChangeAllGrows<T>(c: Cursor<T>, nexts: seq<T>)
    ensures |ChangeAll(c, nexts).past| == |c.past| + |nexts|
    decreases |nexts|
  {
    if nexts != [] {
      ChangeAllGrows(Change(c, nexts[0]), nexts[1..]);
    }
  }

  lemma {:induction false} BackTimesCounts<T>(c: Cursor<T>, n: nat)
    requires n <= |c.past|
    ensures |BackTimes(c, n).past| == |c.past| - n && |BackTimes(c, n).future| == |c.future| + n
  {
    if n > 0 {
      BackTimesCounts(c, n - 1);
    }
  }

  lemma {:induction false} BackTimesIgnoresTheFuture<T>(a: Cursor<T>, b: Cursor<T>, n: nat)
    requires a.past == b.past && a.present == b.present
    ensures BackTimes(a, n).past == BackTimes(b, n).past && BackTimes(a, n).present == BackTimes(b, n).present
  {
    if n > 0 {
      BackTimesIgnoresTheFuture(a, b, n - 1);
    }
  }

  /** Undoing any number of steps that exist and redoing as many is no change at all. */
  lemma {:induction false} RedosRestore<T>(c: Cursor<T>, n: nat)
    requires n <= |c.past|
    ensures ForwardTimes(BackTimes(c, n), n) == c
  {
    if n > 0 {
      BackTimesCounts(c, n - 1);
      ForwardUndoesBack(BackTimes(c, n - 1));
      ForwardTimesFromTop(BackTimes(c, n), n - 1);
      RedosRestore(c, n - 1);
    }
  }

  /** After k changes, k undos restore what they changed and k redos bring all of it back. */
  lemma ChangesUndoneAndRedone<T>(c: Cursor<T>, nexts: seq<T>)
    ensures var changed := ChangeAll(c, nexts);
            var undone := BackTimes(changed, |nexts|);
            && undone.present == c.present
            && undone.past == c.past
            && ForwardTimes(undone, |nexts|) == changed
  {
    UndosRestore(c, nexts);
    ChangeAllGrows(c, nexts);
    RedosRestore(ChangeAll(c, nexts), |nexts|);
  }

  lemma {:induction false} ForwardTimesFromTop<T>(c: Cursor<T>, n: nat)
    ensures ForwardTimes(c, n + 1) == ForwardTimes(Forward(c), n)
  {
    if n > 0 {
      ForwardTimesFromTop(c, n - 1);
    }
  }
}
