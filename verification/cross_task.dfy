/** The command queue between the Net task, which pushes, and the Control task, which drains it with a
    budget, as interleaved micro-steps: every read and write of the shared ring, and every entry to
    and exit from the critical section, is a step of its own. */
module CrossTask {
  import opened Wrappers
  import opened Queues

  datatype Task = Net | Control

  /** Where the pushing task is: calling push, inside the guard before the full check, about to write
      the slot, to advance the tail, to raise the count, or about to leave with its answer. */
  datatype NetPc<T> =
    | NetIdle
    | Entering(x: T)
    | Checking(x: T)
    | Writing(x: T)
    | Advancing(x: T)
    | Counting(x: T)
    | Leaving(stored: bool)

  /** Where the draining task is, with what is left of its budget. */
  datatype ControlPc<T> =
    | Idle
    | Looping(budget: nat)
    | PopEntering(budget: nat)
    | PopChecking(budget: nat)
    | PopReading(budget: nat)
    | HeadAdvancing(budget: nat, x: T)
    | CountLowering(budget: nat, x: T)
    | PopLeaving(budget: nat, got: Option<T>)
    | Submitting(budget: nat, x: T)

  /** The shared ring and lock, both tasks, and what has been accepted, refused and handed over. */
  datatype System<T> = System(
    buf: seq<T>, head: nat, tail: nat, count: nat, lock: Option<Task>,
    net: NetPc<T>, control: ControlPc<T>,
    accepted: seq<T>, refused: seq<T>, handed: seq<T>,
    acceptedAtStart: nat, handedAtStart: nat)

  /** One scheduled micro-step. The Net task, when idle, starts pushing the given element. */
  datatype Move<T> = NetMove(x: T) | ControlMove

  function NetStep<T>(s: System<T>, x: T): System<T>
    requires s.buf != []
  {
    match s.net
    case NetIdle => s.(net := Entering(x))
    case Entering(c) => if s.lock.Some? then s else s.(net := Checking(c), lock := Some(Net))
    case Checking(c) =>
      if s.count == |s.buf| then s.(net := Leaving(false), refused := s.refused + [c])
      else s.(net := Writing(c))
    case Writing(c) => if s.tail < |s.buf| then s.(net := Advancing(c), buf := s.buf[s.tail := c]) else s
    case Advancing(c) => s.(net := Counting(c), tail := (s.tail + 1) % |s.buf|)
    case Counting(c) => s.(net := Leaving(true), count := s.count + 1, accepted := s.accepted + [c])
    case Leaving(_) => s.(net := NetIdle, lock := None)
  }

  function ControlStep<T>(s: System<T>): System<T>
    requires s.buf != []
  {
    match s.control
    case Idle => s.(control := Looping(|s.buf|),
                    acceptedAtStart := |s.accepted|, handedAtStart := |s.handed|)
    case Looping(b) => s.(control := if b == 0 then Idle else PopEntering(b - 1))
    case PopEntering(b) => if s.lock.Some? then s else s.(control := PopChecking(b), lock := Some(Control))
    case PopChecking(b) => s.(control := if s.count == 0 then PopLeaving(b, None) else PopReading(b))
    case PopReading(b) => if s.head < |s.buf| then s.(control := HeadAdvancing(b, s.buf[s.head])) else s
    case HeadAdvancing(b, c) => s.(control := CountLowering(b, c), head := (s.head + 1) % |s.buf|)
    case CountLowering(b, c) => if s.count == 0 then s else s.(control := PopLeaving(b, Some(c)), count := s.count - 1)
    case PopLeaving(b, got) =>
      s.(control := if got.Some? then Submitting(b, got.value) else Idle, lock := None)
    case Submitting(b, c) => s.(control := Looping(b), handed := s.handed + [c])
  }

  function Step<T>(s: System<T>, m: Move<T>): System<T>
    requires s.buf != []
  {
    match m
    case NetMove(x) => NetStep(s, x)
    case ControlMove => ControlStep(s)
  }

  predicate Initial<T>(s: System<T>) {
    && s.buf != [] && s.head == 0 && s.tail == 0 && s.count == 0
    && s.lock.None? && s.net.NetIdle? && s.control.Idle?
    && s.accepted == [] && s.refused == [] && s.handed == []
    && s.acceptedAtStart == 0 && s.handedAtStart == 0
  }

  // ----- What the ring stands for -----

  predicate NetInside<T>(s: System<T>) { !s.net.NetIdle? && !s.net.Entering? }

  predicate ControlInside<T>(s: System<T>) {
    s.control.PopChecking? || s.control.PopReading? || s.control.HeadAdvancing?
    || s.control.CountLowering? || s.control.PopLeaving?
  }

  predicate WellFormed<T>(s: System<T>) {
    && s.head < |s.buf| && s.count <= |s.buf|
    && (s.control.CountLowering? ==> s.count > 0)
  }

  /** The pending elements: while a pop has moved the head but not yet lowered the count, the popped
      element still counts as pending. */
  function Pending<T>(s: System<T>): seq<T>
    requires WellFormed(s)
  {
    if s.control.CountLowering? then [s.control.x] + RingContents(s.buf, s.head, s.count - 1)
    else RingContents(s.buf, s.head, s.count)
  }

  /** Popped but not yet submitted to the coordinator. */
  function InHand<T>(s: System<T>): seq<T> {
    if s.control.PopLeaving? && s.control.got.Some? then [s.control.got.value]
    else if s.control.Submitting? then [s.control.x]
    else []
  }

  /** The abstract queue: everything accepted is handed over, in hand or pending, in this order. */
  datatype Abstract<T> = Abstract(pending: seq<T>, inHand: seq<T>, handed: seq<T>, refused: seq<T>)

  function Abs<T>(s: System<T>): Abstract<T>
    requires WellFormed(s)
  {
    Abstract(Pending(s), InHand(s), s.handed, s.refused)
  }

  /** The three atomic operations: offer an element, take the oldest, hand over what was taken. */
  function Offer<T>(a: Abstract<T>, capacity: nat, x: T): Abstract<T> {
    if |a.pending| == capacity then a.(refused := a.refused + [x]) else a.(pending := a.pending + [x])
  }

  ghost predicate Took<T>(a: Abstract<T>, b: Abstract<T>) {
    a.pending != [] && a.inHand == [] && b == a.(pending := a.pending[1..], inHand := [a.pending[0]])
  }

  ghost predicate HandedOver<T>(a: Abstract<T>, b: Abstract<T>) {
    |a.inHand| == 1 && b == a.(inHand := [], handed := a.handed + a.inHand)
  }

  ghost predicate Invariant<T>(s: System<T>) {
    && WellFormed(s) && s.buf != []
    // mutual exclusion
    && (s.lock == Some(Net) <==> NetInside(s))
    && (s.lock == Some(Control) <==> ControlInside(s))
    // the ring's indices, mid-operation included
    && (s.net.Writing? || s.net.Advancing? || s.net.Counting? ==> s.count < |s.buf|)
    && s.tail == Slot(|s.buf|, s.head + s.count + (if s.net.Counting? then 1 else 0)
                               - (if s.control.CountLowering? then 1 else 0))
    && (s.net.Advancing? || s.net.Counting? ==> s.buf[Slot(|s.buf|, s.head + s.count)] == s.net.x)
    && (s.control.PopReading? || s.control.HeadAdvancing? ==> s.count > 0)
    && (s.control.HeadAdvancing? ==> s.control.x == s.buf[s.head])
  }

  function Everything<T>(a: Abstract<T>): seq<T> { a.handed + a.inHand + a.pending }

  /** Nothing accepted is lost, duplicated or reordered. */
  ghost predicate Conserved<T>(s: System<T>)
    requires WellFormed(s)
  {
    s.accepted == Everything(Abs(s))
  }

  lemma OfferAddsToEverything<T>(a: Abstract<T>, capacity: nat, x: T)
    ensures Everything(Offer(a, capacity, x)) == Everything(a) + if |a.pending| == capacity then [] else [x]
  {
  }

  lemma MovesKeepEverything<T>(a: Abstract<T>, b: Abstract<T>)
    requires Took(a, b) || HandedOver(a, b)
    ensures Everything(b) == Everything(a)
  {
    if Took(a, b) {
      assert a.pending == [a.pending[0]] + a.pending[1..];
    }
  }

  /** One step of either task, whatever the other is in the middle of, changes the abstract queue by
      at most one atomic operation: a push takes effect where it raises the count or finds the ring
      full, a pop where it lowers the count. */
  lemma StepRefines<T>(s: System<T>, m: Move<T>)
    requires Invariant(s)
    ensures var r := Step(s, m);
            && Invariant(r)
            && (if m.NetMove? && (s.net.Counting? || (s.net.Checking? && s.count == |s.buf|))
                then Abs(r) == Offer(Abs(s), |s.buf|, s.net.x)
                else if m.ControlMove? && s.control.CountLowering? then Took(Abs(s), Abs(r))
                else if m.ControlMove? && s.control.Submitting? then HandedOver(Abs(s), Abs(r))
                else Abs(r) == Abs(s))
            && (s.net.Counting? ==> |Abs(s).pending| < |s.buf|)
            && (s.net.Checking? ==> |Abs(s).pending| == s.count)
  {
    match m
    case NetMove(x) => NetStepRefines(s, x);
    case ControlMove => ControlStepRefines(s);
  }

  lemma NetStepRefines<T>(s: System<T>, x: T)
    requires Invariant(s)
    ensures var r := NetStep(s, x);
            && Invariant(r)
            && Abs(r) == if s.net.Counting? || (s.net.Checking? && s.count == |s.buf|)
                         then Offer(Abs(s), |s.buf|, s.net.x) else Abs(s)
  {
    match s.net
    case Writing(c) => NetWrites(s, x);
    case Advancing(c) => NetAdvances(s, x);
    case Counting(c) => NetCounts(s, x);
    case _ => hide RingContents;
  }

  lemma NetWrites<T>(s: System<T>, x: T)
    requires Invariant(s) && s.net.Writing?
    ensures Invariant(NetStep(s, x)) && Abs(NetStep(s, x)) == Abs(s)
  {
    RingPush(s.buf, s.head, s.count, s.net.x);
    hide RingContents;
  }

  lemma NetAdvances<T>(s: System<T>, x: T)
    requires Invariant(s) && s.net.Advancing?
    ensures Invariant(NetStep(s, x)) && Abs(NetStep(s, x)) == Abs(s)
  {
    NextIsSlot(|s.buf|, s.tail);
    RingPush(s.buf, s.head, s.count, s.net.x);
    hide RingContents;
  }

  lemma NetCounts<T>(s: System<T>, x: T)
    requires Invariant(s) && s.net.Counting?
    ensures Invariant(NetStep(s, x)) && Abs(NetStep(s, x)) == Offer(Abs(s), |s.buf|, s.net.x)
  {
    RingPush(s.buf, s.head, s.count, s.net.x);
    assert s.buf[Slot(|s.buf|, s.head + s.count) := s.net.x] == s.buf;
    hide RingContents;
  }

  lemma ControlStepRefines<T>(s: System<T>)
    requires Invariant(s)
    ensures var r := ControlStep(s);
            && Invariant(r)
            && (if s.control.CountLowering? then Took(Abs(s), Abs(r))
                else if s.control.Submitting? then HandedOver(Abs(s), Abs(r))
                else Abs(r) == Abs(s))
  {
    match s.control
    case HeadAdvancing(b, c) => HeadAdvances(s);
    case CountLowering(b, c) => CountLowers(s);
    case _ => hide RingContents;
  }

  lemma HeadAdvances<T>(s: System<T>)
    requires Invariant(s) && s.control.HeadAdvancing?
    ensures Invariant(ControlStep(s)) && Abs(ControlStep(s)) == Abs(s)
  {
    NextIsSlot(|s.buf|, s.head);
    RingPop(s.buf, s.head, s.count);
    hide RingContents;
    var q := RingContents(s.buf, s.head, s.count);
    assert q == [q[0]] + q[1..];
  }

  lemma CountLowers<T>(s: System<T>)
    requires Invariant(s) && s.control.CountLowering?
    ensures Invariant(ControlStep(s)) && Took(Abs(s), Abs(ControlStep(s)))
  {
    hide RingContents;
    var q := RingContents(s.buf, s.head, s.count - 1);
    assert ([s.control.x] + q)[1..] == q;
  }

  lemma AcceptedStep<T>(s: System<T>, m: Move<T>)
    requires s.buf != []
    ensures Step(s, m).accepted == s.accepted + if m.NetMove? && s.net.Counting? then [s.net.x] else []
  {
  }

  lemma StepConserves<T>(s: System<T>, m: Move<T>)
    requires Invariant(s) && Conserved(s)
    ensures Invariant(Step(s, m)) && Conserved(Step(s, m))
  {
    StepRefines(s, m);
    AcceptedStep(s, m);
    var a, b := Abs(s), Abs(Step(s, m));
    hide Step, Invariant, Abs, Everything;
    if m.NetMove? && (s.net.Counting? || (s.net.Checking? && s.count == |s.buf|)) {
      OfferAddsToEverything(a, |s.buf|, s.net.x);
    } else if Took(a, b) || HandedOver(a, b) {
      MovesKeepEverything(a, b);
    }
  }

  // ----- A drain hands over everything that was pending when it started -----

  ghost predicate Draining<T>(s: System<T>) {
    var capacity, done := |s.buf|, |s.handed| - s.handedAtStart;
    && s.acceptedAtStart <= |s.accepted|
    && s.acceptedAtStart - s.handedAtStart <= capacity
    && match s.control
       case Idle => true
       case Looping(b) => b <= capacity && done == capacity - b
       case PopEntering(b) => b < capacity && done == capacity - b - 1
       case PopChecking(b) => b < capacity && done == capacity - b - 1
       case PopReading(b) => b < capacity && done == capacity - b - 1
       case HeadAdvancing(b, _) => b < capacity && done == capacity - b - 1
       case CountLowering(b, _) => b < capacity && done == capacity - b - 1
       case Submitting(b, _) => b < capacity && done == capacity - b - 1
       case PopLeaving(b, got) =>
         && b < capacity && done == capacity - b - 1
         && (got.None? ==> |s.handed| >= s.acceptedAtStart)
  }

  lemma StepKeepsDraining<T>(s: System<T>, m: Move<T>)
    requires Invariant(s) && Conserved(s) && Draining(s)
    ensures Draining(Step(s, m))
  {
  }

  /** When a drain ends it has handed over, in order, everything accepted before it started, and at
      most as many elements as the queue can hold. */
  lemma DrainTakesAllPending<T>(s: System<T>)
    requires Invariant(s) && Conserved(s) && Draining(s) && !s.control.Idle? && ControlStep(s).control.Idle?
    ensures s.acceptedAtStart <= |s.handed| && s.accepted[..s.acceptedAtStart] == s.handed[..s.acceptedAtStart]
    ensures |s.handed| - s.handedAtStart <= |s.buf|
  {
  }

  // ----- All schedules -----

  function Run<T>(s: System<T>, moves: seq<Move<T>>): System<T>
    requires s.buf != []
    ensures Run(s, moves).buf != []
  {
    if moves == [] then s else StepKeepsBuffer(Run(s, moves[..|moves| - 1]), moves[|moves| - 1])
  }

  function StepKeepsBuffer<T>(s: System<T>, m: Move<T>): (r: System<T>)
    requires s.buf != []
    ensures r.buf != [] && r == Step(s, m)
  {
    Step(s, m)
  }

  /** For every schedule of the two tasks, at every micro-step: the tasks are never both inside the
      guard, and what was accepted is what was handed over, then what is in hand, then what is pending,
      in order, with at most the capacity pending. */
  lemma {:induction false} EveryScheduleConserves<T>(s: System<T>, moves: seq<Move<T>>)
    requires Initial(s)
    ensures var r := Run(s, moves);
            && Invariant(r) && Conserved(r) && Draining(r)
            && !(NetInside(r) && ControlInside(r))
            && |Pending(r)| <= |r.buf|
  {
    if moves == [] {
      assert RingContents(s.buf, 0, 0) == [];
    } else {
      EveryScheduleConserves(s, moves[..|moves| - 1]);
      var p := Run(s, moves[..|moves| - 1]);
      StepConserves(p, moves[|moves| - 1]);
      StepKeepsDraining(p, moves[|moves| - 1]);
    }
  }

  // ----- Progress -----

  function Moves<T>(m: Move<T>, n: nat): seq<Move<T>> { seq(n, _ => m) }

  lemma {:induction false} RunAppend<T>(s: System<T>, a: seq<Move<T>>, b: seq<Move<T>>)
    requires s.buf != []
    ensures Run(s, a + b) == Run(Run(s, a), b)
  {
    hide Step;
    if b == [] {
      assert a + b == a;
    } else {
      assert (a + b)[..|a + b| - 1] == a + b[..|b| - 1];
      RunAppend(s, a, b[..|b| - 1]);
    }
  }

  lemma OneMore<T>(s: System<T>, m: Move<T>, n: nat)
    requires s.buf != []
    ensures Run(s, Moves(m, n + 1)) == Run(Step(s, m), Moves(m, n))
  {
    hide Step;
    assert Moves(m, n + 1) == [m] + Moves(m, n);
    RunAppend(s, [m], Moves(m, n));
    assert Run(s, [m]) == Step(s, m) by { assert [m][..0] == []; }
  }

  /** How many moves the pushing task is at most away from the end of its push. */
  function NetWork<T>(pc: NetPc<T>): nat {
    match pc
    case NetIdle => 0
    case Entering(_) => 6
    case Checking(_) => 5
    case Writing(_) => 4
    case Advancing(_) => 3
    case Counting(_) => 2
    case Leaving(_) => 1
  }

  lemma GuardFree<T>(s: System<T>)
    requires Invariant(s) && !NetInside(s) && !ControlInside(s)
    ensures s.lock.None?
  {
    ThreeHolders(s.lock);
  }

  lemma ThreeHolders(lock: Option<Task>)
    ensures lock == None || lock == Some(Net) || lock == Some(Control)
  {
    if lock.Some? {
      var t := lock.value;
      assert lock == if t.Net? then Some(Net) else Some(Control);
    }
  }

  /** While the draining task is outside the guard, every move brings a push nearer to its end. */
  lemma NetAdvancesWork<T>(s: System<T>, x: T)
    requires Invariant(s) && !ControlInside(s) && !s.net.NetIdle?
    ensures var r := NetStep(s, x);
            Invariant(r) && !ControlInside(r) && NetWork(r.net) < NetWork(s.net) && r.control == s.control
  {
    NetStepRefines(s, x);
    hide RingContents;
    if !NetInside(s) {
      GuardFree(s);
    }
  }

  /** A push under way ends while the draining task is outside the guard. */
  lemma {:induction false} PushEnds<T>(s: System<T>, x: T) returns (n: nat)
    requires Invariant(s) && Conserved(s) && Draining(s) && !ControlInside(s)
    ensures n <= NetWork(s.net)
    ensures var r := Run(s, Moves(NetMove(x), n));
            && Invariant(r) && Conserved(r) && Draining(r) && r.net.NetIdle? && r.control == s.control
            && s.accepted <= r.accepted
    decreases NetWork(s.net)
  {
    BufferNonempty(s);
    if s.net.NetIdle? {
      n := 0;
    } else {
      NetAdvancesWork(s, x);
      StepConserves(s, NetMove(x));
      StepKeepsDraining(s, NetMove(x));
      AcceptedStep(s, NetMove(x));
      hide Invariant, Conserved, Draining, ControlInside, NetStep;
      var m := PushEnds(NetStep(s, x), x);
      OneMore(s, NetMove(x), m);
      n := m + 1;
    }
  }

  lemma BufferNonempty<T>(s: System<T>)
    requires Invariant(s)
    ensures s.buf != []
  {
  }

  ghost predicate Carries<T>(pc: NetPc<T>, x: T) {
    match pc
    case NetIdle => false
    case Entering(c) => c == x
    case Checking(c) => c == x
    case Writing(c) => c == x
    case Advancing(c) => c == x
    case Counting(c) => c == x
    case Leaving(_) => false
  }

  /** From s to r the element was accepted, or refused exactly if the ring was full, and nothing else
      changed hands. */
  ghost predicate Pushes<T>(s: System<T>, r: System<T>, x: T)
    requires WellFormed(s)
  {
    && r.handed == s.handed && r.control == s.control
    && if |Pending(s)| == |s.buf| then r.accepted == s.accepted && r.refused == s.refused + [x]
       else r.accepted == s.accepted + [x] && r.refused == s.refused
  }

  /** One move either settles the element or changes nothing but the place in the push. */
  lemma CarriedOn<T>(s: System<T>, x: T, y: T)
    requires Invariant(s) && !ControlInside(s) && Carries(s.net, x)
    ensures var r := NetStep(s, y);
            if r.net.Leaving? then Pushes(s, r, x)
            else Carries(r.net, x) && r.accepted == s.accepted && r.refused == s.refused && r.handed == s.handed
                 && WellFormed(r) && Pending(r) == Pending(s) && r.buf != [] && |r.buf| == |s.buf|
  {
    NetStepRefines(s, y);
    hide RingContents;
  }

  lemma {:induction false} PushSettles<T>(s: System<T>, x: T, y: T) returns (n: nat)
    requires Invariant(s) && !ControlInside(s) && Carries(s.net, x)
    ensures n <= NetWork(s.net)
    ensures var r := Run(s, Moves(NetMove(y), n)); Invariant(r) && r.net.NetIdle? && Pushes(s, r, x)
    decreases NetWork(s.net)
  {
    BufferNonempty(s);
    CarriedOn(s, x, y);
    NetAdvancesWork(s, y);
    hide Invariant, NetStep, ControlInside, Pending;
    var r := NetStep(s, y);
    var m: nat;
    if r.net.Leaving? {
      m := 1;
      Leaves(r, y);
    } else {
      m := PushSettles(r, x, y);
    }
    OneMore(s, NetMove(y), m);
    n := m + 1;
  }

  lemma Leaves<T>(s: System<T>, y: T)
    requires Invariant(s) && s.net.Leaving?
    ensures var r := Run(s, Moves(NetMove(y), 1));
            && Invariant(r) && r.net.NetIdle? && r.control == s.control
            && r.accepted == s.accepted && r.refused == s.refused && r.handed == s.handed
  {
    NetStepRefines(s, y);
    BufferNonempty(s);
    OneMore(s, NetMove(y), 0);
    hide Invariant;
  }

  /** A push that finds the draining task outside the guard ends within seven moves: its element has been
      accepted, or refused exactly if the ring was full, and nothing else has changed hands. */
  lemma PushCompletes<T>(s: System<T>, x: T) returns (n: nat)
    requires Invariant(s) && s.net.NetIdle? && !ControlInside(s)
    ensures n <= 7
    ensures var r := Run(s, Moves(NetMove(x), n));
            && Invariant(r) && r.net.NetIdle? && r.handed == s.handed && r.control == s.control
            && if |Pending(s)| == |s.buf| then r.accepted == s.accepted && r.refused == s.refused + [x]
               else r.accepted == s.accepted + [x] && r.refused == s.refused
  {
    NetStepRefines(s, x);
    BufferNonempty(s);
    var r := NetStep(s, x);
    assert Carries(r.net, x) && r.control == s.control && Pending(r) == Pending(s);
    hide Invariant, Pending;
    var m := PushSettles(r, x, x);
    OneMore(s, NetMove(x), m);
    n := m + 1;
  }

  /** How many moves the draining task is at most away from the end of its drain. */
  function ControlWork<T>(pc: ControlPc<T>): nat {
    match pc
    case Idle => 0
    case Looping(b) => 8 * b + 1
    case PopEntering(b) => 8 * b + 8
    case PopChecking(b) => 8 * b + 7
    case PopReading(b) => 8 * b + 6
    case HeadAdvancing(b, _) => 8 * b + 5
    case CountLowering(b, _) => 8 * b + 4
    case PopLeaving(b, _) => 8 * b + 3
    case Submitting(b, _) => 8 * b + 2
  }

  lemma ControlAdvancesWork<T>(s: System<T>)
    requires Invariant(s) && !NetInside(s) && !s.control.Idle?
    ensures var r := ControlStep(s);
            && Invariant(r) && !NetInside(r) && ControlWork(r.control) < ControlWork(s.control)
            && r.accepted == s.accepted && r.net == s.net && r.acceptedAtStart == s.acceptedAtStart
            && s.handed <= r.handed
  {
    ControlStepRefines(s);
    hide RingContents;
    if !ControlInside(s) {
      GuardFree(s);
    }
  }

  /** A drain that finds the pushing task outside the guard ends, within eight moves for each element the
      queue can hold and one more round, having handed over everything accepted before it began. */
  lemma {:induction false} DrainCompletes<T>(s: System<T>) returns (n: nat)
    requires Invariant(s) && Conserved(s) && Draining(s) && !NetInside(s) && !s.control.Idle?
    ensures n <= ControlWork(s.control)
    ensures var r := Run(s, Moves(ControlMove, n));
            && Invariant(r) && Conserved(r) && Draining(r) && !NetInside(r) && r.control.Idle?
            && r.accepted == s.accepted && s.acceptedAtStart <= |r.handed|
    decreases ControlWork(s.control)
  {
    BufferNonempty(s);
    ControlAdvancesWork(s);
    StepConserves(s, ControlMove);
    StepKeepsDraining(s, ControlMove);
    var r := ControlStep(s);
    var m: nat := 0;
    if r.control.Idle? {
      DrainTakesAllPending(s);
      hide Invariant, Conserved, Draining;
    } else {
      hide Invariant, Conserved, Draining, ControlStep;
      m := DrainCompletes(r);
    }
    OneMore(s, ControlMove, m);
    n := m + 1;
  }

  /** A drain started with the pushing task outside the guard hands over all that was accepted. */
  lemma FullDrain<T>(s: System<T>) returns (n: nat)
    requires Invariant(s) && Conserved(s) && Draining(s) && !NetInside(s) && s.control.Idle?
    ensures n <= 8 * |s.buf| + 2
    ensures var r := Run(s, Moves(ControlMove, n)); r.control.Idle? && r.accepted == r.handed == s.accepted
  {
    BufferNonempty(s);
    StepConserves(s, ControlMove);
    StepKeepsDraining(s, ControlMove);
    var r := ControlStep(s);
    assert r.acceptedAtStart == |s.accepted| && !r.control.Idle? && !NetInside(r) && r.accepted == s.accepted;
    hide Invariant, Draining;
    var m := DrainCompletes(r);
    OneMore(s, ControlMove, m);
    n := m + 1;
    var t := Run(r, Moves(ControlMove, m));
    assert t.accepted == t.handed + InHand(t) + Pending(t);
    assert |t.handed| >= |t.accepted|;
  }

  /** From every reachable state some continuation hands over, in order, everything accepted by then, the
      push under way included. */
  lemma EverythingGetsThrough<T>(s: System<T>, moves: seq<Move<T>>, x: T) returns (more: seq<Move<T>>)
    requires Initial(s)
    ensures var r := Run(s, moves + more);
            r.accepted == r.handed && Run(s, moves).accepted <= r.accepted
  {
    EveryScheduleConserves(s, moves);
    var p := Run(s, moves);
    assert NetInside(p) ==> !ControlInside(p);
    var first: seq<Move<T>>, second: seq<Move<T>> := [], [];
    hide Invariant, Conserved, Draining, ControlInside;
    var q := p;
    if NetInside(p) {
      var n := PushEnds(p, x);
      first := Moves(NetMove(x), n);
      q := Run(p, first);
    }
    assert !NetInside(q) && q == Run(p, first);
    var t := q;
    if !q.control.Idle? {
      var n := DrainCompletes(q);
      second := Moves(ControlMove, n);
      t := Run(q, second);
    }
    assert t == Run(q, second);
    var n := FullDrain(t);
    more := first + (second + Moves(ControlMove, n));
    BufferNonempty(p);
    BufferNonempty(q);
    RunAppend(s, moves, more);
    RunAppend(p, first, second + Moves(ControlMove, n));
    RunAppend(q, second, Moves(ControlMove, n));
  }
}
