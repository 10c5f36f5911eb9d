/** Concurrent calls of qm_state_update_ui (the event thread and button presses) as threads
    stepping through the function body, one slot, kernel call or widget at a time. Nothing
    but the mutex keeps them apart. */
module MenuMutex {
  import opened Vqmbt
  import opened QmState

  type Shared = u: Ui | |u.widgets| == MAX_DEVICES
    witness Ui(seq(8, _ => Button(Device("", 0, 0, 0), SlotEmpty, NoText)), true, seq(8, _ => Widget(BluetoothDisabledLabel, false)), [])

  /** Where a call is between taking and releasing the mutex. `changed` is its local. */
  datatype Call =
    | Body(i: nat, changed: bool)
    | Asked(changed: bool)
    | Hit(k: nat, changed: bool)
    | Deciding(changed: bool)
    | Drawing(i: nat, changed: bool, clear: bool)
    | Finished(changed: bool)

  function SetSlot(u: Shared, i: nat, b: Button): Shared
    requires i < MAX_DEVICES
  {
    u.(buttons := u.buttons[i := b])
  }

  predicate Differs(u: Shared, i: nat, b: Button)
    requires i < MAX_DEVICES
  {
    u.buttons[i] != b
  }

  /** One step of the function body. The loops visit slot after slot; a press first calls
      the kernel and then writes its slot; a device event scans for its slot. */
  function CallStep(u: Shared, req: Req, c: Call): (Shared, Call) {
    match c
    case Body(i, changed) =>
      if req.ButtonPressed? then
        if Issued(u.buttons, req) == [] then (u, Deciding(changed))
        else (u.(commands := u.commands + Issued(u.buttons, req)), Asked(changed))
      else if req.SawConnected? || req.SawDisconnected? then
        if req.mac0 == 0 || req.mac1 == 0 || i >= MAX_DEVICES then (u, Deciding(changed))
        else if HasMac(u.buttons[i], req.mac0, req.mac1) then (u, Hit(i, changed))
        else (u, Body(i + 1, changed))
      else if i >= MAX_DEVICES then (u, Deciding(changed))
      else
        var b := SlotAfter(u.buttons[i], i, req, -1);
        (SetSlot(u, i, b), Body(i + 1, changed || Differs(u, i, b)))
    case Asked(changed) =>
      if req.ButtonPressed? then
        var b := Pressed(u.buttons[req.idx], req.ret);
        (SetSlot(u, req.idx, b), Deciding(changed || Differs(u, req.idx, b)))
      else (u, Deciding(changed))
    case Hit(k, changed) =>
      if k < MAX_DEVICES then
        var b := SlotAfter(u.buttons[k], k, req, k);
        (SetSlot(u, k, b), Deciding(changed || Differs(u, k, b)))
      else (u, Deciding(changed))
    case Deciding(changed) =>
      if changed then (u, Drawing(0, changed, false))
      else if u.firstRun then (u, Drawing(0, changed, true))
      else (u, Finished(changed))
    case Drawing(i, changed, clear) =>
      if i < MAX_DEVICES then (u.(widgets := u.widgets[i := Face(u.buttons[i], i)]), Drawing(i + 1, changed, clear))
      else (u.(firstRun := u.firstRun && !clear), Finished(changed))
    case Finished(changed) => (u, c)
  }

  function StepsLeft(c: Call): nat {
    match c
    case Body(i, _) => if i < MAX_DEVICES then 30 - i else 22
    case Asked(_) => 21
    case Hit(_, _) => 21
    case Deciding(_) => 20
    case Drawing(i, _, _) => if i < MAX_DEVICES then 18 - i else 10
    case Finished(_) => 0
  }

  /** What the call ends with if nothing interferes from here on. */
  function Finish(u: Shared, req: Req, c: Call): (Shared, bool)
    decreases StepsLeft(c)
  {
    if c.Finished? then (u, c.changed)
    else
      var (v, d) := CallStep(u, req, c);
      Finish(v, req, d)
  }

  // ----- Alone, the body computes Update -----

  lemma {:induction false} FinishDrawing(u: Shared, req: Req, i: nat, changed: bool, clear: bool)
    requires i <= MAX_DEVICES && u.widgets[..i] == Faces(u.buttons)[..i]
    ensures Finish(u, req, Drawing(i, changed, clear))
            == (u.(widgets := Faces(u.buttons), firstRun := u.firstRun && !clear), changed)
    decreases MAX_DEVICES - i
  {
    if i < MAX_DEVICES {
      var v: Shared := u.(widgets := u.widgets[i := Face(u.buttons[i], i)]);
      assert v.widgets[..i + 1] == v.widgets[..i] + [v.widgets[i]];
      assert Faces(u.buttons)[..i + 1] == Faces(u.buttons)[..i] + [Faces(u.buttons)[i]];
      FinishDrawing(v, req, i + 1, changed, clear);
    } else {
      assert u.widgets[..i] == u.widgets && Faces(u.buttons)[..i] == Faces(u.buttons);
    }
  }

  lemma FinishDeciding(u: Shared, req: Req, v: Shared, changed: bool)
    requires v == u.(buttons := Updated(u.buttons, req), commands := u.commands + Issued(u.buttons, req))
    requires changed <==> Changes(u, req)
    ensures Finish(v, req, Deciding(changed)) == (Update(u, req), Changes(u, req))
  {
    if changed || v.firstRun {
      FinishDrawing(v, req, 0, changed, !changed);
    }
  }

  /** The loop has visited the slots below i. */
  ghost predicate Visited(u: Shared, req: Req, v: Shared, i: nat, changed: bool) {
    && v == u.(buttons := v.buttons)
    && (forall k :: 0 <= k < MAX_DEVICES ==>
          v.buttons[k] == if k < i then SlotAfter(u.buttons[k], k, req, -1) else u.buttons[k])
    && (changed <==> v.buttons != u.buttons)
  }

  lemma VisitNext(u: Shared, req: Req, v: Shared, i: nat, changed: bool)
    requires i < MAX_DEVICES && Visited(u, req, v, i, changed)
    ensures var b := SlotAfter(v.buttons[i], i, req, -1);
            Visited(u, req, SetSlot(v, i, b), i + 1, changed || Differs(v, i, b))
  {
    StillDiffers(u.buttons, v.buttons, i, SlotAfter(v.buttons[i], i, req, -1));
  }

  lemma {:induction false} FinishLoop(u: Shared, req: Req, v: Shared, i: nat, changed: bool)
    requires req.BulkUpdate? || req.BluetoothOn? || req.BluetoothOff?
    requires i <= MAX_DEVICES && Visited(u, req, v, i, changed)
    ensures Finish(v, req, Body(i, changed)) == (Update(u, req), Changes(u, req))
    decreases MAX_DEVICES - i
  {
    if i < MAX_DEVICES {
      VisitNext(u, req, v, i, changed);
      var b := SlotAfter(v.buttons[i], i, req, -1);
      FinishLoop(u, req, SetSlot(v, i, b), i + 1, changed || Differs(v, i, b));
    } else {
      FinishVisited(u, req, v, changed);
    }
  }

  lemma FinishVisited(u: Shared, req: Req, v: Shared, changed: bool)
    requires req.BulkUpdate? || req.BluetoothOn? || req.BluetoothOff?
    requires Visited(u, req, v, MAX_DEVICES, changed)
    ensures Finish(v, req, Deciding(changed)) == (Update(u, req), Changes(u, req))
  {
    assert v.buttons == Updated(u.buttons, req);
    assert u.commands + [] == u.commands;
    FinishDeciding(u, req, v, changed);
  }

  lemma {:induction false} FinishScan(u: Shared, req: Req, i: nat)
    requires (req.SawConnected? || req.SawDisconnected?) && req.mac0 != 0 && req.mac1 != 0
    requires i <= MAX_DEVICES && Target(u.buttons, req) == FirstMatch(u.buttons, req.mac0, req.mac1, i)
    ensures Finish(u, req, Body(i, false)) == (Update(u, req), Changes(u, req))
    decreases MAX_DEVICES - i
  {
    if i == MAX_DEVICES {
      FinishMissed(u, req);
    } else if HasMac(u.buttons[i], req.mac0, req.mac1) {
      FinishOneSlot(u, req, i);
    } else {
      FinishScan(u, req, i + 1);
    }
  }

  lemma FinishMissed(u: Shared, req: Req)
    requires (req.SawConnected? || req.SawDisconnected?) && Target(u.buttons, req) == -1
    ensures Finish(u, req, Deciding(false)) == (Update(u, req), Changes(u, req))
  {
    assert Updated(u.buttons, req) == u.buttons;
    assert u.commands + [] == u.commands;
    FinishDeciding(u, req, u, false);
  }

  lemma FinishOneSlot(u: Shared, req: Req, k: nat)
    requires (req.SawConnected? || req.SawDisconnected?) && Target(u.buttons, req) == k < MAX_DEVICES
    ensures Finish(u, req, Hit(k, false)) == (Update(u, req), Changes(u, req))
  {
    var b := SlotAfter(u.buttons[k], k, req, k);
    var v := SetSlot(u, k, b);
    assert v.buttons == Updated(u.buttons, req);
    assert v.buttons != u.buttons <==> Differs(u, k, b) by {
      if Differs(u, k, b) {
        assert v.buttons[k] != u.buttons[k];
      }
    }
    assert u.commands + [] == u.commands;
    FinishDeciding(u, req, v, Differs(u, k, b));
  }

  lemma FinishPress(u: Shared, req: Req)
    requires req.ButtonPressed?
    ensures Finish(u, req, Body(0, false)) == (Update(u, req), Changes(u, req))
  {
    var b := Pressed(u.buttons[req.idx], req.ret);
    if Issued(u.buttons, req) == [] {
      assert Updated(u.buttons, req) == u.buttons;
      assert u.commands + [] == u.commands;
      FinishDeciding(u, req, u, false);
    } else {
      var v: Shared := u.(commands := u.commands + Issued(u.buttons, req));
      var w := SetSlot(v, req.idx, b);
      assert w.buttons == Updated(u.buttons, req);
      assert w.buttons[req.idx] != u.buttons[req.idx];
      FinishDeciding(u, req, w, Differs(v, req.idx, b));
    }
  }

  /** Stepped through without interruption, a call does what Update says and returns
      whether it changed anything. */
  lemma AloneIsUpdate(u: Shared, req: Req)
    ensures Finish(u, req, Body(0, false)) == (Update(u, req), Changes(u, req))
  {
    match req
    case ButtonPressed(_, _) => FinishPress(u, req);
    case SawConnected(m0, m1) => if m0 == 0 || m1 == 0 { FinishMissed(u, req); } else { FinishScan(u, req, 0); }
    case SawDisconnected(m0, m1) => if m0 == 0 || m1 == 0 { FinishMissed(u, req); } else { FinishScan(u, req, 0); }
    case _ => FinishLoop(u, req, u, 0, false);
  }

  // ----- Any number of threads -----

  datatype Activity = Outside | Inside(req: Req, call: Call)

  datatype Thread = Thread(todo: seq<Req>, at: Activity)

  /** `order` and `results` record the calls in the order they took the mutex and what the
      completed ones returned. A thread inside the function just runs its next step. */
  datatype Machine = Machine(u: Shared, owner: Option<nat>, threads: seq<Thread>,
                             order: seq<(nat, Req)>, results: seq<bool>)

  function Step(m: Machine, t: nat): Machine {
    if t >= |m.threads| then m
    else
      var th := m.threads[t];
      match th.at
      case Outside =>
        if m.owner.None? && th.todo != [] then
          m.(owner := Some(t), order := m.order + [(t, th.todo[0])],
             threads := m.threads[t := Thread(th.todo[1..], Inside(th.todo[0], Body(0, false)))])
        else m
      case Inside(req, call) =>
        if call.Finished? then
          m.(owner := None, results := m.results + [call.changed], threads := m.threads[t := th.(at := Outside)])
        else
          var (v, d) := CallStep(m.u, req, call);
          m.(u := v, threads := m.threads[t := th.(at := Inside(req, d))])
  }

  function Run(m: Machine, sched: seq<nat>): Machine {
    if sched == [] then m else Step(Run(m, sched[..|sched| - 1]), sched[|sched| - 1])
  }

  function Begin(u: Shared, todos: seq<seq<Req>>): Machine {
    Machine(u, None, seq(|todos|, i requires 0 <= i < |todos| => Thread(todos[i], Outside)), [], [])
  }

  function Requests(order: seq<(nat, Req)>): seq<Req> {
    seq(|order|, i requires 0 <= i < |order| => order[i].1)
  }

  /** The requests thread t has made, in order. */
  function Made(order: seq<(nat, Req)>, t: nat): seq<Req> {
    if order == [] then []
    else
      var rest, last := order[..|order| - 1], order[|order| - 1];
      if last.0 == t then Made(rest, t) + [last.1] else Made(rest, t)
  }

  ghost predicate OnlyOwnerInside(m: Machine) {
    forall t :: 0 <= t < |m.threads| && m.threads[t].at.Inside? ==> m.owner == Some(t)
  }

  /** Completed call k returned whether it changed anything when run after those before it. */
  ghost predicate ResultsRight(u: Shared, reqs: seq<Req>, results: seq<bool>) {
    |results| <= |reqs| && forall k :: 0 <= k < |results| ==> ResultRight(u, reqs, k, results[k])
  }

  /** The call in progress will leave what it leaves when run after the completed ones. */
  ghost predicate CallOnCourse(before: Ui, now: Shared, req: Req, call: Call) {
    Finish(now, req, call) == (Update(before, req), Changes(before, req))
  }

  /** Only the owner is inside, and what it will leave behind is what the calls so far give
      one after another. */
  ghost predicate Serial(u: Shared, m: Machine) {
    var reqs := Requests(m.order);
    && OnlyOwnerInside(m)
    && ResultsRight(u, reqs, m.results)
    && match m.owner
       case None => |m.results| == |m.order| && m.u == Serve(u, reqs)
       case Some(t) =>
         && |m.results| + 1 == |m.order|
         && t < |m.threads|
         && m.threads[t].at.Inside?
         && reqs[|m.results|] == m.threads[t].at.req
         && CallOnCourse(Serve(u, reqs[..|m.results|]), m.u, m.threads[t].at.req, m.threads[t].at.call)
  }

  lemma RequestsGrow(order: seq<(nat, Req)>, more: (nat, Req))
    ensures Requests(order + [more]) == Requests(order) + [more.1]
    ensures Requests(order + [more])[..|order|] == Requests(order)
    ensures forall k :: 0 <= k <= |order| ==> Requests(order + [more])[..k] == Requests(order)[..k]
  {
  }

  lemma {:induction false} ServeKeepsWidgets(u: Shared, reqs: seq<Req>)
    ensures |Serve(u, reqs).widgets| == MAX_DEVICES
  {
    if reqs != [] {
      ServeKeepsWidgets(u, reqs[..|reqs| - 1]);
    }
  }

  lemma EnterKeepsSerial(u: Shared, m: Machine, t: nat)
    requires Serial(u, m) && t < |m.threads| && m.threads[t].at.Outside? && m.owner.None? && m.threads[t].todo != []
    ensures Serial(u, Step(m, t))
  {
    var n := Step(m, t);
    var req := m.threads[t].todo[0];
    var reqs := Requests(m.order);
    RequestsGrow(m.order, (t, req));
    AloneIsUpdate(m.u, req);
    assert n.threads[t].at == Inside(req, Body(0, false));
    assert Requests(n.order)[..|n.results|] == reqs;
    assert OnlyOwnerInside(n);
    forall k | 0 <= k < |n.results|
      ensures ResultRight(u, Requests(n.order), k, n.results[k])
    {
      assert ResultRight(u, reqs, k, n.results[k]);
      assert Requests(n.order)[..k] == reqs[..k] && Requests(n.order)[k] == reqs[k];
    }
  }

  lemma WorkKeepsSerial(u: Shared, m: Machine, t: nat)
    requires Serial(u, m) && t < |m.threads| && m.threads[t].at.Inside? && !m.threads[t].at.call.Finished?
    ensures Serial(u, Step(m, t))
  {
    var n := Step(m, t);
    assert OnlyOwnerInside(n);
  }

  lemma LastServed(u: Ui, reqs: seq<Req>, n: nat)
    requires n + 1 == |reqs|
    ensures Serve(u, reqs) == Update(Serve(u, reqs[..n]), reqs[n])
  {
  }

  ghost predicate ResultRight(u: Shared, reqs: seq<Req>, k: nat, result: bool)
    requires k < |reqs|
  {
    result == Changes(Serve(u, reqs[..k]), reqs[k])
  }

  lemma OneMoreResult(u: Shared, reqs: seq<Req>, results: seq<bool>, changed: bool)
    requires ResultsRight(u, reqs, results) && |results| < |reqs|
    requires ResultRight(u, reqs, |results|, changed)
    ensures ResultsRight(u, reqs, results + [changed])
  {
  }

  lemma LastResult(u: Shared, reqs: seq<Req>, results: seq<bool>, now: Shared, call: Call)
    requires |results| + 1 == |reqs| && ResultsRight(u, reqs, results) && call.Finished?
    requires CallOnCourse(Serve(u, reqs[..|results|]), now, reqs[|results|], call)
    ensures ResultsRight(u, reqs, results + [call.changed]) && now == Serve(u, reqs)
  {
    OneMoreResult(u, reqs, results, call.changed);
    LastServed(u, reqs, |results|);
  }

  lemma LeaveKeepsSerial(u: Shared, m: Machine, t: nat)
    requires Serial(u, m) && t < |m.threads| && m.threads[t].at.Inside? && m.threads[t].at.call.Finished?
    ensures Serial(u, Step(m, t))
  {
    var n := Step(m, t);
    assert m.owner == Some(t);
    LastResult(u, Requests(m.order), m.results, m.u, m.threads[t].at.call);
    assert OnlyOwnerInside(n);
  }

  lemma StepKeepsSerial(u: Shared, m: Machine, t: nat)
    requires Serial(u, m)
    ensures Serial(u, Step(m, t))
  {
    if t < |m.threads| {
      var th := m.threads[t];
      if th.at.Outside? && m.owner.None? && th.todo != [] {
        EnterKeepsSerial(u, m, t);
      } else if th.at.Inside? && th.at.call.Finished? {
        LeaveKeepsSerial(u, m, t);
      } else if th.at.Inside? {
        WorkKeepsSerial(u, m, t);
      }
    }
  }

  lemma {:induction false} RunIsSerial(u: Shared, todos: seq<seq<Req>>, sched: seq<nat>)
    ensures Serial(u, Run(Begin(u, todos), sched))
  {
    if sched != [] {
      RunIsSerial(u, todos, sched[..|sched| - 1]);
      StepKeepsSerial(u, Run(Begin(u, todos), sched[..|sched| - 1]), sched[|sched| - 1]);
    }
  }

  lemma {:induction false} ProgramOrder(u: Shared, todos: seq<seq<Req>>, sched: seq<nat>, t: nat)
    requires t < |todos|
    ensures var m := Run(Begin(u, todos), sched);
            |m.threads| == |todos| && Made(m.order, t) + m.threads[t].todo == todos[t]
  {
    if sched != [] {
      ProgramOrder(u, todos, sched[..|sched| - 1], t);
      StepKeepsOrder(Run(Begin(u, todos), sched[..|sched| - 1]), sched[|sched| - 1], t);
    }
  }

  lemma StepKeepsOrder(m: Machine, s: nat, t: nat)
    requires t < |m.threads|
    ensures var n := Step(m, s);
            |n.threads| == |m.threads| && Made(n.order, t) + n.threads[t].todo == Made(m.order, t) + m.threads[t].todo
  {
    var n := Step(m, s);
    if n.order != m.order {
      MadeGrows(m.order, (s, m.threads[s].todo[0]), t);
    }
  }

  lemma MadeGrows(order: seq<(nat, Req)>, more: (nat, Req), t: nat)
    ensures Made(order + [more], t) == Made(order, t) + if more.0 == t then [more.1] else []
  {
    assert (order + [more])[..|order|] == order;
  }

  /** Every interleaving is equivalent to running the calls one after another in the order
      they took the mutex: same state, widgets and kernel calls whenever the mutex is free,
      same return value for every completed call, each thread's calls in its own order, and
      never two threads inside. */
  lemma Linearizable(u: Shared, todos: seq<seq<Req>>, sched: seq<nat>)
    ensures var m := Run(Begin(u, todos), sched);
            && (m.owner.None? ==> m.u == Serve(u, Requests(m.order)) && |m.results| == |m.order|)
            && |m.results| <= |m.order|
            && (forall k :: 0 <= k < |m.results| ==>
                  m.results[k] == Changes(Serve(u, Requests(m.order)[..k]), Requests(m.order)[k]))
            && |m.threads| == |todos|
            && (forall t :: 0 <= t < |todos| ==> Made(m.order, t) + m.threads[t].todo == todos[t])
            && (forall s, t :: 0 <= s < t < |todos| ==> !(m.threads[s].at.Inside? && m.threads[t].at.Inside?))
  {
    RunIsSerial(u, todos, sched);
    SameThreads(u, todos, sched);
    var m := Run(Begin(u, todos), sched);
    assert |Requests(m.order)| == |m.order|;
    forall k | 0 <= k < |m.results|
      ensures m.results[k] == Changes(Serve(u, Requests(m.order)[..k]), Requests(m.order)[k])
    {
      assert ResultRight(u, Requests(m.order), k, m.results[k]);
    }
    forall t | 0 <= t < |m.threads| ensures Made(m.order, t) + m.threads[t].todo == todos[t] {
      ProgramOrder(u, todos, sched, t);
    }
  }

  lemma {:induction false} SameThreads(u: Shared, todos: seq<seq<Req>>, sched: seq<nat>)
    ensures |Run(Begin(u, todos), sched).threads| == |todos|
  {
    if sched != [] {
      SameThreads(u, todos, sched[..|sched| - 1]);
    }
  }

  // ----- Every call completes -----

  /** The mutex is held exactly when somebody is inside, and by that thread. */
  ghost predicate Held(m: Machine) {
    && OnlyOwnerInside(m)
    && (m.owner.Some? ==> m.owner.value < |m.threads| && m.threads[m.owner.value].at.Inside?)
  }

  predicate Done(th: Thread) {
    th.todo == [] && th.at.Outside?
  }

  /** The calls not yet begun. */
  function Waiting(threads: seq<Thread>): nat {
    if threads == [] then 0 else Waiting(threads[..|threads| - 1]) + |threads[|threads| - 1].todo|
  }

  lemma {:induction false} WaitingAfter(threads: seq<Thread>, t: nat, th: Thread)
    requires t < |threads|
    ensures Waiting(threads[t := th]) == Waiting(threads) - |threads[t].todo| + |th.todo|
  {
    var n := |threads| - 1;
    if t < n {
      WaitingAfter(threads[..n], t, th);
      assert threads[t := th][..n] == threads[..n][t := th];
    } else {
      assert threads[t := th][..n] == threads[..n];
    }
  }

  lemma {:induction false} NoneWaiting(threads: seq<Thread>, t: nat)
    requires Waiting(threads) == 0 && t < |threads|
    ensures threads[t].todo == []
  {
    if t < |threads| - 1 {
      NoneWaiting(threads[..|threads| - 1], t);
    }
  }

  lemma {:induction false} SomeWaiting(threads: seq<Thread>) returns (t: nat)
    requires Waiting(threads) > 0
    ensures t < |threads| && threads[t].todo != []
  {
    var n := |threads| - 1;
    if threads[n].todo != [] {
      t := n;
    } else {
      t := SomeWaiting(threads[..n]);
    }
  }

  lemma {:induction false} RunAppend(m: Machine, a: seq<nat>, b: seq<nat>)
    ensures Run(m, a + b) == Run(Run(m, a), b)
  {
    if b == [] {
      assert a + b == a;
    } else {
      assert (a + b)[..|a + b| - 1] == a + b[..|b| - 1];
      RunAppend(m, a, b[..|b| - 1]);
    }
  }

  lemma RunFirst(m: Machine, t: nat, more: seq<nat>)
    ensures Run(m, [t] + more) == Run(Step(m, t), more)
  {
    assert [t][..0] == [];
    RunAppend(m, [t], more);
  }

  /** A thread inside that goes on alone leaves, and releases the mutex. */
  lemma {:induction false} CallFinishes(m: Machine, t: nat) returns (more: seq<nat>)
    requires Held(m) && m.owner == Some(t)
    ensures var n := Run(m, more);
            && n.owner.None? && Held(n) && |n.threads| == |m.threads| && Waiting(n.threads) == Waiting(m.threads)
    decreases StepsLeft(m.threads[t].at.call)
  {
    var n := Step(m, t);
    WaitingAfter(m.threads, t, n.threads[t]);
    assert n.threads == m.threads[t := n.threads[t]];
    if m.threads[t].at.call.Finished? {
      more := [t];
      RunFirst(m, t, []);
    } else {
      var rest := CallFinishes(n, t);
      more := [t] + rest;
      RunFirst(m, t, rest);
    }
  }

  lemma CallBegins(m: Machine, t: nat)
    requires Held(m) && m.owner.None? && t < |m.threads| && m.threads[t].todo != []
    ensures var n := Step(m, t);
            && Held(n) && n.owner == Some(t) && |n.threads| == |m.threads| && Waiting(n.threads) == Waiting(m.threads) - 1
  {
    var n := Step(m, t);
    WaitingAfter(m.threads, t, n.threads[t]);
    assert n.threads == m.threads[t := n.threads[t]];
  }

  lemma {:induction false} AllFinish(m: Machine) returns (more: seq<nat>)
    requires Held(m)
    ensures var n := Run(m, more); n.owner.None? && Held(n) && Waiting(n.threads) == 0
    decreases Waiting(m.threads), m.owner.Some?
  {
    if m.owner.Some? {
      var first := CallFinishes(m, m.owner.value);
      var rest := AllFinish(Run(m, first));
      more := first + rest;
      RunAppend(m, first, rest);
    } else if Waiting(m.threads) > 0 {
      var t := SomeWaiting(m.threads);
      CallBegins(m, t);
      var rest := AllFinish(Step(m, t));
      more := [t] + rest;
      RunFirst(m, t, rest);
    } else {
      more := [];
    }
  }

  /** From every state that any interleaving can reach, some continuation completes every call of
      every thread: each has returned, in its thread's order, and the mutex is free. */
  lemma EveryCallCompletes(u: Shared, todos: seq<seq<Req>>, sched: seq<nat>) returns (more: seq<nat>)
    ensures var m := Run(Begin(u, todos), sched + more);
            && m.owner.None? && |m.results| == |m.order| && |m.threads| == |todos|
            && forall t :: 0 <= t < |todos| ==> Done(m.threads[t]) && Made(m.order, t) == todos[t]
  {
    RunIsSerial(u, todos, sched);
    more := AllFinish(Run(Begin(u, todos), sched));
    RunAppend(Begin(u, todos), sched, more);
    RunIsSerial(u, todos, sched + more);
    SameThreads(u, todos, sched + more);
    var m := Run(Begin(u, todos), sched + more);
    forall t | 0 <= t < |todos| ensures Done(m.threads[t]) && Made(m.order, t) == todos[t] {
      NoneWaiting(m.threads, t);
      ProgramOrder(u, todos, sched + more, t);
    }
  }
}
