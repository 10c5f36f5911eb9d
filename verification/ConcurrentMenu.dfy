/** The event loop and the user's presses on the real menu: the loop's requests are one thread's
    calls of qm_state_update_ui, presses are other threads', and the calls interleave step by
    step. What EventLoop records as one list of requests is here the order of the mutex. */
module ConcurrentMenu {
  import opened Vqmbt
  import opened QmState
  import opened EventLoop
  import opened EventLoopHistory
  import opened EventLoopSnapshot
  import opened EventLoopTheorems
  import opened MenuRuns
  import MenuMutex

  // ----- Presses among the requests -----

  lemma {:induction false} NotPressesConcat(a: seq<Req>, b: seq<Req>)
    ensures NotPresses(a + b) == NotPresses(a) + NotPresses(b)
  {
    if b == [] {
      assert a + b == a;
    } else {
      assert (a + b)[..|a + b| - 1] == a + b[..|b| - 1];
      NotPressesConcat(a, b[..|b| - 1]);
    }
  }

  lemma {:induction false} NoPressLeft(reqs: seq<Req>, k: nat)
    requires k < |NotPresses(reqs)|
    ensures !NotPresses(reqs)[k].ButtonPressed?
  {
    if k < |NotPresses(reqs[..|reqs| - 1])| {
      NoPressLeft(reqs[..|reqs| - 1], k);
    }
  }

  /** Request number k of those that are not presses, found among the presses around it. */
  lemma {:induction false} FindAmongPresses(reqs: seq<Req>, k: nat) returns (p: nat)
    requires k < |NotPresses(reqs)|
    ensures 0 < p <= |reqs| && reqs[p - 1] == NotPresses(reqs)[k]
    ensures NotPresses(reqs[p..]) == NotPresses(reqs)[k + 1..]
  {
    var rest := reqs[..|reqs| - 1];
    if k < |NotPresses(rest)| {
      p := FindAmongPresses(rest, k);
      FoundInMore(reqs, k, p);
    } else {
      p := |reqs|;
    }
  }

  lemma FoundInMore(reqs: seq<Req>, k: nat, p: nat)
    requires reqs != [] && k < |NotPresses(reqs[..|reqs| - 1])| && 0 < p < |reqs|
    requires reqs[p - 1] == NotPresses(reqs[..|reqs| - 1])[k]
    requires NotPresses(reqs[..|reqs| - 1][p..]) == NotPresses(reqs[..|reqs| - 1])[k + 1..]
    ensures k < |NotPresses(reqs)| && reqs[p - 1] == NotPresses(reqs)[k]
    ensures NotPresses(reqs[p..]) == NotPresses(reqs)[k + 1..]
  {
    var rest, last := reqs[..|reqs| - 1], reqs[|reqs| - 1];
    assert reqs[p..] == rest[p..] + [last];
    OneMore(rest[p..], last);
    DropOfSum(NotPresses(rest), if last.ButtonPressed? then [] else [last], k + 1);
  }

  lemma DropOfSum(a: seq<Req>, b: seq<Req>, k: nat)
    requires k <= |a|
    ensures (a + b)[k..] == a[k..] + b
  {
  }

  lemma OneMore(reqs: seq<Req>, req: Req)
    ensures NotPresses(reqs + [req]) == NotPresses(reqs) + if req.ButtonPressed? then [] else [req]
  {
    NotPressesAppend(reqs, [req]);
  }

  // ----- The order of the mutex -----

  predicate OnlyPresses(reqs: seq<Req>) {
    forall k :: 0 <= k < |reqs| ==> reqs[k].ButtonPressed?
  }

  /** Thread 0 makes the event loop's requests, and every other thread the user's presses. */
  ghost predicate LoopAndPresses(requests: seq<Req>, todos: seq<seq<Req>>) {
    todos != [] && todos[0] == NotPresses(requests) && forall t :: 1 <= t < |todos| ==> OnlyPresses(todos[t])
  }

  function Menu(shown: seq<Widget>, todos: seq<seq<Req>>, sched: seq<nat>): MenuMutex.Machine
    requires |shown| == MAX_DEVICES
  {
    MenuMutex.Run(MenuMutex.Begin(Start(shown), todos), sched)
  }

  /** Nobody holds the mutex, and the event thread has made all its calls. */
  predicate LoopDone(m: MenuMutex.Machine) {
    m.owner.None? && m.threads != [] && m.threads[0].todo == []
  }

  lemma {:induction false} CallersExist(shown: seq<Widget>, todos: seq<seq<Req>>, sched: seq<nat>, k: nat)
    requires |shown| == MAX_DEVICES && k < |Menu(shown, todos, sched).order|
    ensures Menu(shown, todos, sched).order[k].0 < |todos|
  {
    if sched != [] {
      var rest := sched[..|sched| - 1];
      MenuMutex.SameThreads(Start(shown), todos, rest);
      if k < |Menu(shown, todos, rest).order| {
        CallersExist(shown, todos, rest, k);
      }
    }
  }

  /** A caller's requests are those it set out to make. */
  lemma {:induction false} CallIsMade(order: seq<(nat, Req)>, k: nat)
    requires k < |order|
    ensures order[k].1 in MenuMutex.Made(order, order[k].0)
  {
    if k < |order| - 1 {
      CallIsMade(order[..|order| - 1], k);
    }
  }

  /** Only the event thread makes requests that are not presses. */
  predicate Separated(order: seq<(nat, Req)>) {
    forall k :: 0 <= k < |order| ==> (order[k].1.ButtonPressed? <==> order[k].0 != 0)
  }

  lemma CallsAreSeparated(requests: seq<Req>, shown: seq<Widget>, todos: seq<seq<Req>>, sched: seq<nat>)
    requires |shown| == MAX_DEVICES && LoopAndPresses(requests, todos)
    ensures Separated(Menu(shown, todos, sched).order)
  {
    var m := Menu(shown, todos, sched);
    forall k | 0 <= k < |m.order| ensures m.order[k].1.ButtonPressed? <==> m.order[k].0 != 0 {
      var t := m.order[k].0;
      CallersExist(shown, todos, sched, k);
      MenuMutex.ProgramOrder(Start(shown), todos, sched, t);
      CallIsMade(m.order, k);
      assert m.order[k].1 in MenuMutex.Made(m.order, t) + m.threads[t].todo;
      var j :| 0 <= j < |todos[t]| && todos[t][j] == m.order[k].1;
      if t == 0 {
        NoPressLeft(requests, j);
      }
    }
  }

  /** What is left of the mutex order without presses is what the event thread has made. */
  lemma {:induction false} LoopsShare(order: seq<(nat, Req)>)
    requires Separated(order)
    ensures NotPresses(MenuMutex.Requests(order)) == MenuMutex.Made(order, 0)
  {
    if order != [] {
      var rest, last := order[..|order| - 1], order[|order| - 1];
      LoopsShare(rest);
      assert MenuMutex.Requests(order) == MenuMutex.Requests(rest) + [last.1];
      OneMore(MenuMutex.Requests(rest), last.1);
    }
  }

  // ----- The menu the user sees -----

  /** The mutex order, cut at the bulk update of the event loop's last snapshot: after it come
      exactly the requests of the events since, with presses among them. */
  lemma SnapshotInOrder(acts: seq<Action>, shown: seq<Widget>, todos: seq<seq<Req>>, sched: seq<nat>)
    returns (lo: nat, taken: Taken, base: nat)
    requires State(acts).failures == [] && Between(State(acts)) && ClearSinceSnapshot(acts)
    requires |shown| == MAX_DEVICES && LoopAndPresses(State(acts).requests, todos) && LoopDone(Menu(shown, todos, sched))
    ensures LastReset(acts, taken) && lo == |State(acts[..taken.flush]).core.emitted|
    ensures var s, reqs := State(acts), MenuMutex.Requests(Menu(shown, todos, sched).order);
            && 0 < base <= |reqs|
            && reqs[base - 1] == BulkUpdate(taken.on, |taken.devices|, taken.devices)
            && lo <= s.mark && lo <= s.core.r <= |s.core.emitted|
            && NotPresses(reqs[base..]) == RequestsFor(s.core.emitted[lo..s.core.r])
  {
    lo, taken := SinceSnapshot(acts);
    CallsAreSeparated(State(acts).requests, shown, todos, sched);
    LoopsShare(Menu(shown, todos, sched).order);
    MenuMutex.ProgramOrder(Start(shown), todos, sched, 0);
    base := CutAtSnapshot(State(acts).requests, State(acts).base, MenuMutex.Requests(Menu(shown, todos, sched).order));
  }

  lemma CutAtSnapshot(requests: seq<Req>, at: nat, reqs: seq<Req>) returns (base: nat)
    requires 0 < at <= |requests| && !requests[at - 1].ButtonPressed? && NotPresses(reqs) == NotPresses(requests)
    ensures 0 < base <= |reqs| && reqs[base - 1] == requests[at - 1]
    ensures NotPresses(reqs[base..]) == NotPresses(requests[at..])
  {
    var past, bulk, tail := requests[..at - 1], requests[at - 1], requests[at..];
    assert requests == past + [bulk] + tail;
    NotPressesConcat(past + [bulk], tail);
    OneMore(past, bulk);
    var k := |NotPresses(past)|;
    assert NotPresses(reqs)[k] == bulk;
    DropOfSum(NotPresses(past + [bulk]), NotPresses(tail), k + 1);
    base := FindAmongPresses(reqs, k);
  }

  /** End to end, with every call of qm_state_update_ui interleaved step by step with the
      others: once the event thread has made its calls and the mutex is free, the widgets show
      the menu's state, and its addresses and button states are those of a menu that saw only
      the last snapshot, every event since and the presses made meanwhile. */
  lemma ConcurrentMenuIsCurrent(acts: seq<Action>, shown: seq<Widget>, todos: seq<seq<Req>>, sched: seq<nat>)
    returns (lo: nat, taken: Taken, base: nat)
    requires State(acts).failures == [] && Between(State(acts)) && ClearSinceSnapshot(acts)
    requires |shown| == MAX_DEVICES && LoopAndPresses(State(acts).requests, todos) && LoopDone(Menu(shown, todos, sched))
    ensures LastReset(acts, taken) && lo == |State(acts[..taken.flush]).core.emitted|
    ensures var s, m := State(acts), Menu(shown, todos, sched);
            var reqs := MenuMutex.Requests(m.order);
            && 0 < base <= |reqs| && reqs[base - 1] == BulkUpdate(taken.on, |taken.devices|, taken.devices)
            && lo <= s.mark && lo <= s.core.r <= |s.core.emitted|
            && NotPresses(reqs[base..]) == RequestsFor(s.core.emitted[lo..s.core.r])
            && m.u.widgets == Faces(m.u.buttons)
            && (TrustedAt(reqs, base) ==> Alike(m.u.buttons, After([reqs[base - 1]] + reqs[base..])))
  {
    lo, taken, base := SnapshotInOrder(acts, shown, todos, sched);
    var reqs := MenuMutex.Requests(Menu(shown, todos, sched).order);
    MenuMutex.Linearizable(Start(shown), todos, sched);
    DisplayFollowsState(shown, reqs);
    ButtonsIgnoreWidgets(shown, reqs);
    if TrustedAt(reqs, base) {
      TrustedForgets(reqs, base);
    }
  }
}
