/**
 The one-at-a-time dialog owner of `accessibility.ts`.

 A promise is modelled by the log of its resolutions: `issued` lists every
 accepted request with its safe result, `resolved` every call of a resolver.
 The class is the controller itself; `Apply` is the step it is proved against,
 and the run lemmas below are about any sequence of such steps.
 */
module DialogOwner {
  import opened Wrappers

  datatype Pending<P, R> = Pending(id: nat, payload: P, safeResult: R, settled: bool)

  datatype Issue<R> = Issue(id: nat, safeResult: R)

  datatype Resolution<R> = Resolution(id: nat, result: R)

  /** One call of the listeners registered at that time with the then active id. */
  datatype Notice = Notice(listeners: set<nat>, activeId: Option<nat>)

  datatype State<P, R> = State(
    nextId: nat,
    pending: Option<Pending<P, R>>,
    listeners: set<nat>,
    issued: seq<Issue<R>>,
    resolved: seq<Resolution<R>>,
    notices: seq<Notice>)

  datatype Action<P, R> =
    | Subscribe(listener: nat)
    | Unsubscribe(listener: nat)
    | Request(payload: P, safeResult: R)
    | Settle(id: nat, result: R)
    | CancelActive
    | Dispose

  function Initial<P, R>(): State<P, R> {
    State(1, None, {}, [], [], [])
  }

  function ActiveId<P, R>(pending: Option<Pending<P, R>>): Option<nat> {
    if pending.Some? then Some(pending.value.id) else None
  }

  function Emit<P, R>(s: State<P, R>): State<P, R> {
    s.(notices := s.notices + [Notice(s.listeners, ActiveId(s.pending))])
  }

  function SettleWith<P, R>(s: State<P, R>, id: nat, result: R): State<P, R> {
    if s.pending.None? || s.pending.value.id != id || s.pending.value.settled then s
    else Emit(s.(pending := None, resolved := s.resolved + [Resolution(id, result)]))
  }

  function Apply<P, R>(s: State<P, R>, a: Action<P, R>): State<P, R> {
    match a
    case Subscribe(l) =>
      s.(listeners := s.listeners + {l}, notices := s.notices + [Notice({l}, ActiveId(s.pending))])
    case Unsubscribe(l) => s.(listeners := s.listeners - {l})
    case Request(payload, safe) =>
      if s.pending.Some? then s
      else
        Emit(s.(nextId := s.nextId + 1,
                pending := Some(Pending(s.nextId, payload, safe, false)),
                issued := s.issued + [Issue(s.nextId, safe)]))
    case Settle(id, result) => SettleWith(s, id, result)
    case CancelActive =>
      if s.pending.None? then s else SettleWith(s, s.pending.value.id, s.pending.value.safeResult)
    case Dispose =>
      if s.pending.None? || s.pending.value.settled then s.(listeners := {})
      else
        s.(pending := None, listeners := {},
           resolved := s.resolved + [Resolution(s.pending.value.id, s.pending.value.safeResult)])
  }

  function Run<P, R>(actions: seq<Action<P, R>>): State<P, R> {
    if actions == [] then Initial()
    else Apply(Run(actions[..|actions| - 1]), actions[|actions| - 1])
  }

  /** What a caller of `request` is given: an id and a promise, or its own safe result at once. */
  datatype RequestOutcome<R> = Accepted(id: nat) | Refused(result: R)

  class DialogController<P, R> {
    var nextId: nat
    var pending: Option<Pending<P, R>>
    var listeners: set<nat>
    ghost var issued: seq<Issue<R>>
    ghost var resolved: seq<Resolution<R>>
    ghost var notices: seq<Notice>

    ghost function Abstract(): State<P, R>
      reads this
    {
      State(nextId, pending, listeners, issued, resolved, notices)
    }

    constructor ()
      ensures Abstract() == Initial()
    {
      nextId, pending, listeners := 1, None, {};
      issued, resolved, notices := [], [], [];
    }

    method SubscribeListener(listener: nat)
      modifies this
      ensures Abstract() == Apply(old(Abstract()), Subscribe(listener))
    {
      listeners := listeners + {listener};
      notices := notices + [Notice({listener}, ActiveId(pending))];
    }

    method UnsubscribeListener(listener: nat)
      modifies this
      ensures Abstract() == Apply(old(Abstract()), Unsubscribe(listener))
    {
      listeners := listeners - {listener};
    }

    method RequestDialog(payload: P, safeResult: R) returns (outcome: RequestOutcome<R>)
      modifies this
      ensures Abstract() == Apply(old(Abstract()), Request(payload, safeResult))
      ensures outcome == if old(pending).Some? then Refused(safeResult) else Accepted(old(nextId))
    {
      if pending.Some? {
        return Refused(safeResult);
      }
      var id := nextId;
      nextId := nextId + 1;
      pending := Some(Pending(id, payload, safeResult, false));
      issued := issued + [Issue(id, safeResult)];
      notices := notices + [Notice(listeners, ActiveId(pending))];
      outcome := Accepted(id);
    }

    method SettleDialog(id: nat, result: R) returns (settled: bool)
      modifies this
      ensures Abstract() == Apply(old(Abstract()), Settle(id, result))
      ensures settled <==> |resolved| == old(|resolved|) + 1
      ensures !settled ==> resolved == old(resolved)
    {
      if pending.None? || pending.value.id != id || pending.value.settled {
        return false;
      }
      pending := None;
      resolved := resolved + [Resolution(id, result)];
      notices := notices + [Notice(listeners, ActiveId(pending))];
      settled := true;
    }

    method CancelActiveDialog() returns (settled: bool)
      modifies this
      ensures Abstract() == Apply(old(Abstract()), CancelActive)
      ensures settled <==> |resolved| == old(|resolved|) + 1
    {
      if pending.Some? {
        settled := SettleDialog(pending.value.id, pending.value.safeResult);
      } else {
        settled := false;
      }
    }

    method DisposeDialog() returns (settled: bool)
      modifies this
      ensures Abstract() == Apply(old(Abstract()), Dispose)
      ensures settled <==> |resolved| == old(|resolved|) + 1
      ensures notices == old(notices)
    {
      if pending.None? || pending.value.settled {
        listeners := {};
        return false;
      }
      var owned := pending.value;
      pending, listeners := None, {};
      resolved := resolved + [Resolution(owned.id, owned.safeResult)];
      settled := true;
    }
  }

  /**
   Action `n` resolved the promise then pending with `r`: a settle of its id
   with that very result, or a cancellation or teardown with its safe result.
   */
  ghost predicate ResolvedBy<P(!new), R(!new)>(n: nat, k: nat, r: Resolution<R>, actions: seq<Action<P, R>>)
    requires n < |actions|
  {
    var before := Run(actions[..n]);
    && |before.resolved| == k && Apply(before, actions[n]).resolved == before.resolved + [r]
    && before.pending.Some? && before.pending.value.id == r.id
    && (actions[n] == Settle(r.id, r.result)
        || ((actions[n].CancelActive? || actions[n].Dispose?) && r.result == before.pending.value.safeResult))
  }

  /** The `k`-th resolution was made by one action of the run, while its own request was pending. */
  ghost predicate Justified<P(!new), R(!new)>(k: nat, r: Resolution<R>, actions: seq<Action<P, R>>) {
    exists n: nat :: n < |actions| && ResolvedBy(n, k, r, actions)
  }

  /** The accounting that every interleaving keeps. */
  ghost predicate Accounted<P(!new), R(!new)>(s: State<P, R>, actions: seq<Action<P, R>>) {
    && s.nextId == |s.issued| + 1
    && (forall i :: 0 <= i < |s.issued| ==> s.issued[i].id == i + 1)
    && (forall i :: 0 <= i < |s.resolved| ==> s.resolved[i].id == i + 1)
    && (forall i: nat :: i < |s.resolved| ==> Justified(i, s.resolved[i], actions))
    && |s.issued| == |s.resolved| + (if s.pending.Some? then 1 else 0)
    && (s.pending.Some? ==>
          && !s.pending.value.settled
          && s.issued[|s.issued| - 1] == Issue(s.pending.value.id, s.pending.value.safeResult))
  }

  lemma JustifiedGrows<P(!new), R(!new)>(k: nat, r: Resolution<R>, before: seq<Action<P, R>>, a: Action<P, R>)
    requires Justified(k, r, before)
    ensures Justified(k, r, before + [a])
  {
    var n: nat :| n < |before| && ResolvedBy(n, k, r, before);
    assert (before + [a])[..n] == before[..n];
    assert ResolvedBy(n, k, r, before + [a]);
  }

  /**
   Over any interleaving of request, settle, cancel, dispose and subscription:
   ids are 1, 2, 3, ... in order of acceptance; the i-th promise is resolved
   at most once and in order, by one action while it is pending, with the value
   that action settles it with or its own safe result;
   and the accepted requests are the resolved ones plus the pending one.
   */
  lemma {:induction false} EveryRunIsAccounted<P(!new), R(!new)>(actions: seq<Action<P, R>>)
    ensures Accounted(Run(actions), actions)
  {
    if actions != [] {
      var before, a := actions[..|actions| - 1], actions[|actions| - 1];
      EveryRunIsAccounted(before);
      var s, t := Run(before), Run(actions);
      assert actions == before + [a];
      forall i: nat | i < |t.resolved| ensures Justified(i, t.resolved[i], actions) {
        if i < |s.resolved| {
          JustifiedGrows(i, s.resolved[i], before, a);
        } else {
          assert ResolvedBy(|before|, i, t.resolved[i], actions);
        }
      }
    }
  }

  /** A resolution is never withdrawn, and no later step resolves the same promise again. */
  lemma {:induction false} ResolvedExactlyOnce<P(!new), R(!new)>(earlier: seq<Action<P, R>>, later: seq<Action<P, R>>)
    ensures Run(earlier).resolved <= Run(earlier + later).resolved
    ensures forall i, j :: 0 <= i < j < |Run(earlier + later).resolved| ==>
              Run(earlier + later).resolved[i].id != Run(earlier + later).resolved[j].id
  {
    EveryRunIsAccounted(earlier + later);
    if later == [] {
      assert earlier + later == earlier;
    } else {
      var init := later[..|later| - 1];
      ResolvedExactlyOnce(earlier, init);
      assert (earlier + later)[..|earlier + later| - 1] == earlier + init;
    }
  }

  /** After teardown nothing is pending and no listener is told anything until one subscribes again. */
  lemma DisposeSettlesEverything<P(!new), R(!new)>(actions: seq<Action<P, R>>, next: Action<P, R>)
    requires !next.Subscribe?
    ensures var s := Run(actions + [Dispose]);
            && s.pending.None?
            && |s.issued| == |s.resolved|
            && forall n :: n in Apply(s, next).notices[|s.notices|..] ==> n.listeners == {}
  {
    EveryRunIsAccounted(actions + [Dispose]);
    assert (actions + [Dispose])[..|actions + [Dispose]| - 1] == actions;
    EveryRunIsAccounted(actions);
  }

  /**
   Listeners are told of every change of the pending dialog except a teardown,
   once each and with the id then pending, and a new one at once of the present.
   */
  lemma StepNotifies<P(!new), R(!new)>(s: State<P, R>, a: Action<P, R>)
    ensures var t := Apply(s, a);
            var before := if s.pending.Some? then Some(s.pending.value.id) else None;
            var after := if t.pending.Some? then Some(t.pending.value.id) else None;
            t.notices == s.notices +
              if a.Subscribe? then [Notice({a.listener}, before)]
              else if t.pending != s.pending && !a.Dispose? then [Notice(s.listeners, after)]
              else []
  {
  }
}
