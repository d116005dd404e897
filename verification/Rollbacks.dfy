/** Deployment rollback: actions registered by many threads and claimed, last in first out, by others. */
module Rollbacks {
  import opened Wrappers
  import opened Sequences

  type Action(==, !new)

  /** An action with the number of registrations before it. */
  datatype Entry = Entry(order: nat, action: Action)

  /** `running` are the actions claimed and not yet marked done; `registered` counts registrations. */
  datatype State = State(stack: seq<Entry>, running: set<Entry>, unfinished: int, registered: nat)

  /** `Done` is the `task_done` that follows the handler, whether it returned or raised. */
  datatype Event =
    | Register(action: Action)
    | Claim(entry: Entry)
    | NothingLeft
    | Done(entry: Entry, raised: bool)

  const INITIAL := State([], {}, 0, 0)

  function Step(s: State, e: Event): Option<State> {
    match e
    case Register(action) =>
      Some(s.(stack := s.stack + [Entry(s.registered, action)],
              unfinished := s.unfinished + 1, registered := s.registered + 1))
    case Claim(entry) =>
      if s.stack != [] && Last(s.stack) == entry then
        Some(s.(stack := Front(s.stack), running := s.running + {entry}))
      else None
    case NothingLeft =>
      if s.stack == [] then Some(s) else None
    case Done(entry, raised) =>
      if entry in s.running then
        Some(s.(running := s.running - {entry}, unfinished := s.unfinished - 1))
      else None
  }

  function Exec(es: seq<Event>): Option<State> {
    if es == [] then Some(INITIAL)
    else
      match Exec(Front(es))
      case None => None
      case Some(s) => Step(s, Last(es))
  }

  lemma ExecExtends(es: seq<Event>, e: Event)
    requires Exec(es).Some?
    ensures Exec(es + [e]) == Step(Exec(es).value, e)
  {
    assert Front(es + [e]) == es;
  }

  /** The actions registered, in order. */
  function Registered(es: seq<Event>): seq<Action> {
    if es == [] then [] else Registered(Front(es)) + if Last(es).Register? then [Last(es).action] else []
  }

  /** The actions claimed, in order. */
  function Claimed(es: seq<Event>): seq<Entry> {
    if es == [] then [] else Claimed(Front(es)) + if Last(es).Claim? then [Last(es).entry] else []
  }

  ghost predicate Known(actions: seq<Action>, e: Entry) {
    e.order < |actions| && actions[e.order] == e.action
  }

  ghost predicate Inv(actions: seq<Action>, claimed: seq<Entry>, s: State) {
    && s.registered == |actions|
    && (forall e | e in s.stack || e in claimed :: Known(actions, e))
    && (forall i, j | 0 <= i < j < |s.stack| :: s.stack[i].order < s.stack[j].order)
    && (forall i, j | 0 <= i < j < |claimed| :: claimed[i] != claimed[j])
    && (forall e | e in s.stack :: e !in claimed)
    && (forall e | Known(actions, e) :: e in s.stack || e in claimed)
    && (forall e | e in s.running :: e in claimed)
    && s.unfinished == |s.stack| + |s.running|
  }

  lemma RegisterKeepsInv(actions: seq<Action>, claimed: seq<Entry>, s: State, action: Action)
    requires Inv(actions, claimed, s)
    ensures Inv(actions + [action], claimed, Step(s, Register(action)).value)
  {
    var s', newest := Step(s, Register(action)).value, Entry(s.registered, action);
    forall e | Known(actions + [action], e) ensures e in s'.stack || e in claimed {
      assert e == newest || Known(actions, e);
      assert newest == s'.stack[|s.stack|];
    }
    forall i | 0 <= i < |s.stack| ensures s.stack[i].order < s.registered {
      assert s.stack[i] in s.stack;
    }
    assert !Known(actions, newest);
  }

  lemma ClaimKeepsInv(actions: seq<Action>, claimed: seq<Entry>, s: State, entry: Entry)
    requires Inv(actions, claimed, s) && Step(s, Claim(entry)).Some?
    ensures Inv(actions, claimed + [entry], Step(s, Claim(entry)).value)
  {
    assert entry in s.stack && entry !in s.running;
    assert s.stack == Front(s.stack) + [entry];
    TopMoves(s.stack, claimed);
  }

  /** Moving the top from the stack to the claimed actions loses and duplicates nothing. */
  lemma TopMoves(stack: seq<Entry>, claimed: seq<Entry>)
    requires stack != [] && forall i, j | 0 <= i < j < |stack| :: stack[i].order < stack[j].order
    ensures Last(stack) !in Front(stack)
    ensures forall e ::
      e in Front(stack) || e in claimed + [Last(stack)] <==> e in stack || e in claimed
  {
    assert stack == Front(stack) + [Last(stack)];
    forall e | e in Front(stack) ensures e != Last(stack) {
      var i :| 0 <= i < |stack| - 1 && stack[i] == e;
      assert stack[i].order < stack[|stack| - 1].order;
    }
  }

  lemma StepKeepsInv(actions: seq<Action>, claimed: seq<Entry>, s: State, e: Event)
    requires Inv(actions, claimed, s) && Step(s, e).Some?
    ensures Inv(actions + (if e.Register? then [e.action] else []),
                claimed + (if e.Claim? then [e.entry] else []), Step(s, e).value)
  {
    assert actions + [] == actions && claimed + [] == claimed;
    match e
    case Register(action) => RegisterKeepsInv(actions, claimed, s, action);
    case Claim(entry) => ClaimKeepsInv(actions, claimed, s, entry);
    case _ =>
  }

  lemma {:induction false} Invariant(es: seq<Event>)
    requires Exec(es).Some?
    ensures Inv(Registered(es), Claimed(es), Exec(es).value)
  {
    if es != [] {
      Invariant(Front(es));
      StepKeepsInv(Registered(Front(es)), Claimed(Front(es)), Exec(Front(es)).value, Last(es));
    }
  }

  lemma TopIsLatest(stack: seq<Entry>)
    requires stack != [] && forall i, j | 0 <= i < j < |stack| :: stack[i].order < stack[j].order
    ensures forall e | e in stack :: e.order <= Last(stack).order
  {
  }

  lemma TopIsNotRunning(es: seq<Event>)
    requires Exec(es).Some? && Exec(es).value.stack != []
    ensures Last(Exec(es).value.stack) !in Exec(es).value.running
  {
    Invariant(es);
    assert Last(Exec(es).value.stack) in Exec(es).value.stack;
  }

  /** What one more event adds to each part of the history. */
  lemma HistoryExtends(es: seq<Event>, e: Event)
    ensures Registered(es + [e]) == Registered(es) + if e.Register? then [e.action] else []
    ensures Claimed(es + [e]) == Claimed(es) + if e.Claim? then [e.entry] else []
  {
    assert Front(es + [e]) == es;
  }

  /** Over any interleaving of registrations and claims: an action is claimed only when every action
      registered after it has already been claimed. */
  lemma LastInFirstOut(es: seq<Event>, entry: Entry, later: Entry)
    requires Exec(es + [Claim(entry)]).Some?
    requires later.order < |Registered(es)| && later.action == Registered(es)[later.order]
    requires later.order > entry.order
    ensures later in Claimed(es)
  {
    assert Front(es + [Claim(entry)]) == es;
    Invariant(es);
    assert Known(Registered(es), later);
    TopIsLatest(Exec(es).value.stack);
  }

  /** Every registered action is still stacked or has been claimed exactly once, and the unfinished count is
      the actions stacked plus the actions running. */
  lemma ActionsConserved(es: seq<Event>, n: nat)
    requires Exec(es).Some? && n < |Registered(es)|
    ensures
      var s, e := Exec(es).value, Entry(n, Registered(es)[n]);
      && (e in s.stack <==> e !in Claimed(es))
      && (forall i, j | 0 <= i < |Claimed(es)| && 0 <= j < |Claimed(es)| ::
            Claimed(es)[i] == e == Claimed(es)[j] ==> i == j)
      && s.unfinished == |s.stack| + |s.running|
  {
    Invariant(es);
    assert Known(Registered(es), Entry(n, Registered(es)[n]));
  }

  /** Whoever finds the stack empty, as `drain` does before it returns: every action registered so far has
      been claimed by then. */
  lemma NothingLeftMeansAllClaimed(es: seq<Event>, e: Entry)
    requires Exec(es + [NothingLeft]).Some?
    requires e.order < |Registered(es)| && e.action == Registered(es)[e.order]
    ensures e in Claimed(es)
  {
    assert Front(es + [NothingLeft]) == es;
    Invariant(es);
    assert Known(Registered(es), e);
  }

  function Reverse(actions: seq<Action>): seq<Action> {
    if actions == [] then [] else [Last(actions)] + Reverse(Front(actions))
  }

  lemma {:induction false} ReverseAt(actions: seq<Action>, k: nat)
    requires k < |actions|
    ensures |Reverse(actions)| == |actions| && Reverse(actions)[k] == actions[|actions| - 1 - k]
  {
    if k > 0 {
      ReverseAt(Front(actions), k - 1);
    } else if |actions| > 1 {
      ReverseAt(Front(actions), 0);
    }
  }

  /** `ran` is what has been taken from the end of `stack`, leaving `rest`. */
  ghost predicate TakenFromTop(stack: seq<Action>, rest: seq<Action>, ran: seq<Action>) {
    && |ran| + |rest| == |stack|
    && rest == stack[..|rest|]
    && ran == Reverse(stack[|rest|..])
  }

  lemma TakeNone(stack: seq<Action>)
    ensures TakenFromTop(stack, stack, [])
  {
    assert stack[..|stack|] == stack && stack[|stack|..] == [];
  }

  lemma TakeOneMore(stack: seq<Action>, rest: seq<Action>, ran: seq<Action>)
    requires TakenFromTop(stack, rest, ran) && rest != []
    ensures TakenFromTop(stack, Front(rest), ran + [Last(rest)])
  {
    ReverseExtends(stack, |rest|);
  }

  /** What that means position by position. */
  lemma TakenPositions(stack: seq<Action>, rest: seq<Action>, ran: seq<Action>)
    requires TakenFromTop(stack, rest, ran)
    ensures |ran| <= |stack| && rest == stack[..|stack| - |ran|] && ran == Reverse(stack[|stack| - |ran|..])
    ensures forall k | 0 <= k < |ran| :: ran[k] == stack[|stack| - 1 - k]
    ensures rest == [] ==> ran == Reverse(stack)
  {
    forall k | 0 <= k < |ran| ensures ran[k] == stack[|stack| - 1 - k] {
      ReverseAt(stack[|rest|..], k);
    }
    if rest == [] {
      assert stack[0..] == stack;
    }
  }

  function Actions(entries: seq<Entry>): (r: seq<Action>)
    ensures |r| == |entries|
  {
    seq(|entries|, i requires 0 <= i < |entries| => entries[i].action)
  }

  datatype HandlerError = HandlerRaised

  /** The rollback stack as the mutable object the source defines. */
  class DeploymentRollback {
    var stack: seq<Action>
    var unfinished: int
    ghost var entries: seq<Entry>
    ghost var running: set<Entry>
    ghost var registered: nat
    ghost var trace: seq<Event>

    ghost function View(): State
      reads this
    {
      State(entries, running, unfinished, registered)
    }

    ghost predicate Valid()
      reads this
    {
      Exec(trace) == Some(View()) && stack == Actions(entries)
    }

    constructor ()
      ensures Valid() && trace == [] && stack == [] && unfinished == 0 && running == {}
    {
      stack, unfinished, entries, running, registered, trace := [], 0, [], {}, 0, [];
    }

    method RegisterAction(action: Action)
      requires Valid()
      modifies this
      ensures Valid() && trace == old(trace) + [Register(action)] && stack == old(stack) + [action]
      ensures unfinished == old(unfinished) + 1 && running == old(running)
      ensures Registered(trace) == Registered(old(trace)) + [action] && Claimed(trace) == Claimed(old(trace))
    {
      RegisterRuns(action);
      HistoryExtends(trace, Register(action));
      trace := trace + [Register(action)];
      stack, unfinished := stack + [action], unfinished + 1;
      entries, registered := entries + [Entry(registered, action)], registered + 1;
    }

    lemma RegisterRuns(action: Action)
      requires Valid()
      ensures
        var entries' := entries + [Entry(registered, action)];
        && Exec(trace + [Register(action)]) == Some(State(entries', running, unfinished + 1, registered + 1))
        && Actions(entries') == stack + [action]
    {
      ExecExtends(trace, Register(action));
    }

    /** The non-blocking `get`. */
    method ClaimNext() returns (r: Option<Action>, ghost entry: Option<Entry>)
      requires Valid()
      modifies this
      ensures Valid() && unfinished == old(unfinished)
      ensures r.None? <==> old(stack) == []
      ensures r.None? ==> trace == old(trace) + [NothingLeft] && stack == old(stack) && running == old(running)
      ensures r.Some? ==>
        && stack == Front(old(stack)) && r.value == Last(old(stack))
        && entry.Some? && trace == old(trace) + [Claim(entry.value)]
        && running == old(running) + {entry.value} && entry.value !in old(running)
        && entry.value.action == r.value && Claimed(trace) == Claimed(old(trace)) + [entry.value]
      ensures Registered(trace) == Registered(old(trace))
    {
      HistoryExtends(trace, NothingLeft);
      if stack == [] {
        r, entry := None, None;
        ExecExtends(trace, NothingLeft);
        trace := trace + [NothingLeft];
      } else {
        TopIsNotRunning(trace);
        HistoryExtends(trace, Claim(Last(entries)));
        r, entry := Some(stack[|stack| - 1]), Some(Last(entries));
        stack, entries, running := stack[..|stack| - 1], Front(entries), running + {Last(entries)};
        ExecExtends(trace, Claim(entry.value));
        trace := trace + [Claim(entry.value)];
      }
    }

    method MarkDone(ghost entry: Entry, ghost raised: bool)
      requires Valid() && entry in running
      modifies this
      ensures Valid() && trace == old(trace) + [Done(entry, raised)]
      ensures stack == old(stack) && running == old(running) - {entry} && unfinished == old(unfinished) - 1
    {
      unfinished, running := unfinished - 1, running - {entry};
      ExecExtends(trace, Done(entry, raised));
      trace := trace + [Done(entry, raised)];
    }

    /** `run_next` on a thread nobody interferes with; `raises` tells whether the handler raises.  The action
        is gone either way, and `ran` is what the handler was called with. */
    method RunNext(raises: bool) returns (r: Result<bool, HandlerError>, ghost ran: seq<Action>)
      requires Valid()
      modifies this
      ensures Valid() && running == old(running)
      ensures old(stack) == [] ==> r == Returned(false) && ran == [] && stack == [] && unfinished == old(unfinished)
      ensures old(stack) != [] ==>
        && r == (if raises then Raised(HandlerRaised) else Returned(true))
        && ran == [Last(old(stack))] && stack == Front(old(stack)) && unfinished == old(unfinished) - 1
    {
      var action, entry := ClaimNext();
      if action.None? {
        r, ran := Returned(false), [];
        return;
      }
      ran := [action.value];
      MarkDone(entry.value, raises);
      assert running == old(running);
      r := if raises then Raised(HandlerRaised) else Returned(true);
    }

    /** `drain` with no concurrent registration; the k-th handler call raises if `raises(k)`.  The actions
        run in exactly the reverse of their registration; if the k-th one raises, it is gone and the older
        ones remain, in order. */
    method Drain(raises: nat -> bool) returns (r: Result<nat, HandlerError>, ghost ran: seq<Action>)
      requires Valid()
      modifies this
      ensures Valid() && running == old(running)
      ensures |ran| <= |old(stack)| && stack == old(stack)[..|old(stack)| - |ran|]
      ensures ran == Reverse(old(stack)[|old(stack)| - |ran|..])
      ensures forall k | 0 <= k < |ran| :: ran[k] == old(stack)[|old(stack)| - 1 - k]
      ensures unfinished == old(unfinished) - |ran|
      ensures r.Returned? ==> r.value == |ran| && stack == [] && ran == Reverse(old(stack))
      ensures r.Returned? <==> forall k | 0 <= k < |old(stack)| :: !raises(k)
      ensures r.Raised? ==> ran != [] && raises(|ran| - 1) && forall k | 0 <= k < |ran| - 1 :: !raises(k)
    {
      r, ran := RunUntilEmpty(raises);
      TakenPositions(old(stack), stack, ran);
    }

    /** The loop of `drain`. */
    method RunUntilEmpty(raises: nat -> bool) returns (r: Result<nat, HandlerError>, ghost ran: seq<Action>)
      requires Valid()
      modifies this
      ensures Valid() && running == old(running)
      ensures TakenFromTop(old(stack), stack, ran) && unfinished == old(unfinished) - |ran|
      ensures r.Returned? ==> r.value == |ran| && stack == [] && forall k | 0 <= k < |ran| :: !raises(k)
      ensures r.Raised? ==> ran != [] && raises(|ran| - 1) && forall k | 0 <= k < |ran| - 1 :: !raises(k)
    {
      var completed: nat := 0;
      ran := [];
      TakeNone(stack);
      while true
        invariant Valid() && running == old(running)
        invariant completed == |ran| && TakenFromTop(old(stack), stack, ran)
        invariant unfinished == old(unfinished) - |ran|
        invariant forall k | 0 <= k < completed :: !raises(k)
        decreases |stack|
      {
        ghost var rest := stack;
        var next, some := RunNext(raises(completed));
        if next == Returned(false) {
          return Returned(completed), ran;
        }
        TakeOneMore(old(stack), rest, ran);
        ran := ran + some;
        if next.Raised? {
          return Raised(next.error), ran;
        }
        completed := completed + 1;
      }
    }
  }

  /** Taking one more action from the end of the stack adds one to the reversal of what has been taken. */
  lemma ReverseExtends(actions: seq<Action>, n: nat)
    requires 0 < n <= |actions|
    ensures Reverse(actions[n - 1..]) == Reverse(actions[n..]) + [actions[n - 1]]
  {
    ReversePrepend(actions[n - 1], actions[n..]);
    assert [actions[n - 1]] + actions[n..] == actions[n - 1..];
  }

  lemma {:induction false} ReversePrepend(a: Action, actions: seq<Action>)
    ensures Reverse([a] + actions) == Reverse(actions) + [a]
  {
    if actions != [] {
      ReversePrepend(a, Front(actions));
      assert Front([a] + actions) == [a] + Front(actions);
    }
  }
}
