/** Event sets: 32 flag bits, and threads suspended until some or all of the bits they want are set. */
module Event {
  import opened Flags
  import opened IntrusiveList
  import opened WaitQueue
  import opened WaitChannel
  import opened WaitHistory

  /** A suspended thread: the bits it wants and its options AND, OR and CLEAR; AND takes precedence over OR. */
  datatype Waiter = Waiter(t: Tid, want: bv32, all: bool, any: bool, clear: bool)

  predicate Satisfied(w: Waiter, bits: bv32) {
    if w.all then Sub(w.want, bits) else !Disjoint(w.want, bits)
  }

  /** The bits a satisfied thread finds in event_set when it returns. */
  function Delivered(w: Waiter, bits: bv32): bv32 {
    if w.all then w.want else And(w.want, bits)
  }

  /** The bits left when thread `w` has been looked at. */
  function Left(w: Waiter, bits: bv32): bv32 {
    if Satisfied(w, bits) && w.clear then Without(bits, Delivered(w, bits)) else bits
  }

  /** Clearing bits never satisfies a thread that was not satisfied. */
  lemma FewerBits(w: Waiter, few: bv32, many: bv32)
    requires Sub(few, many) && Satisfied(w, few)
    ensures Satisfied(w, many)
  {
    hide And, Sub, Disjoint;
    SubTrans(w.want, few, many);
    MeetsMore(w.want, few, many);
  }

  lemma LeftSub(w: Waiter, bits: bv32)
    ensures Sub(Left(w, bits), bits)
  {
    hide And, Without, Sub, Satisfied, Delivered;
    WithoutSub(bits, Delivered(w, bits));
    SubSelf(bits);
  }

  /** Bits consumed by one thread are not among those looked at later. */
  lemma ConsumedIsGone(w: Waiter, bits: bv32, later: bv32)
    requires Satisfied(w, bits) && w.clear && Sub(later, Left(w, bits))
    ensures Disjoint(Delivered(w, bits), later)
  {
    hide And, Without, Sub, Disjoint, Satisfied, Delivered;
    WithoutGone(bits, Delivered(w, bits), later);
  }

  /** What a thread of this kind may be given out of `bits`: everything it wants, or a non-empty part of it. */
  predicate Proper(w: Waiter, d: bv32, bits: bv32) {
    Sub(d, bits) && if w.all then d == w.want else Sub(d, w.want) && d != 0
  }

  lemma DeliveredProper(w: Waiter, bits: bv32)
    requires Satisfied(w, bits)
    ensures Proper(w, Delivered(w, bits), bits)
  {
    hide And, Sub;
    AndSub(w.want, bits);
  }

  // ----- one pass of rt_event_send over the queue -----

  datatype Delivery = Delivery(w: Waiter, got: bv32)

  /** What a pass leaves: the bits, the threads still waiting, and the threads resumed with what they got. */
  datatype Round = Round(bits: bv32, waiting: seq<Waiter>, given: seq<Delivery>)

  function Pass(q: seq<Waiter>, bits: bv32): Round {
    if q == [] then Round(bits, [], [])
    else
      var r := Pass(q[1..], Left(q[0], bits));
      if Satisfied(q[0], bits)
      then r.(given := [Delivery(q[0], Delivered(q[0], bits))] + r.given)
      else r.(waiting := [q[0]] + r.waiting)
  }

  predicate Quiet(q: seq<Waiter>, bits: bv32) {
    forall w :: w in q ==> !Satisfied(w, bits)
  }

  lemma LeftWhole(w: Waiter, bits: bv32)
    requires !Satisfied(w, bits) || !w.clear
    ensures Left(w, bits) == bits
  {
    hide Satisfied;
  }

  /** A pass only takes bits away. */
  lemma {:induction false} PassShrinks(q: seq<Waiter>, bits: bv32)
    ensures Sub(Pass(q, bits).bits, bits)
  {
    hide Satisfied, Delivered, Left, And, Sub;
    if q == [] {
      SubSelf(bits);
    } else {
      PassShrinks(q[1..], Left(q[0], bits));
      LeftSub(q[0], bits);
      SubTrans(Pass(q, bits).bits, Left(q[0], bits), bits);
    }
  }

  /**
   Quiescence: one pass is enough although bits are cleared on the way. A thread passed over early was unsatisfied by
   more bits than are left at the end.
   */
  lemma {:induction false} PassQuiets(q: seq<Waiter>, bits: bv32)
    ensures Quiet(Pass(q, bits).waiting, Pass(q, bits).bits)
  {
    hide Satisfied, Delivered, Left, And, Sub;
    if q != [] {
      PassQuiets(q[1..], Left(q[0], bits));
      if !Satisfied(q[0], bits) {
        LeftWhole(q[0], bits);
        PassShrinks(q[1..], bits);
        if Satisfied(q[0], Pass(q[1..], bits).bits) {
          FewerBits(q[0], Pass(q[1..], bits).bits, bits);
        }
      }
    }
  }

  lemma PassFirst(q: seq<Waiter>, bits: bv32)
    requires q != []
    ensures var r := Pass(q[1..], Left(q[0], bits));
            Pass(q, bits).given == (if Satisfied(q[0], bits) then [Delivery(q[0], Delivered(q[0], bits))] else []) + r.given
  {
    hide Satisfied, Delivered, Left;
    var given := Pass(q[1..], Left(q[0], bits)).given;
    assert [] + given == given;
  }

  lemma StillProper(q: seq<Waiter>, bits: bv32, d: Delivery)
    requires q != [] && d.w in q[1..] && Proper(d.w, d.got, Left(q[0], bits))
    ensures d.w in q && Proper(d.w, d.got, bits)
  {
    hide Proper, Left;
    LeftSub(q[0], bits);
    ProperWidens(d.w, d.got, Left(q[0], bits), bits);
  }

  lemma FirstProper(q: seq<Waiter>, bits: bv32)
    requires q != [] && Satisfied(q[0], bits)
    ensures var d := Delivery(q[0], Delivered(q[0], bits)); d.w in q && Proper(d.w, d.got, bits)
  {
    hide Satisfied, Delivered, Proper;
    DeliveredProper(q[0], bits);
  }

  lemma NoneGiven(bits: bv32)
    ensures Pass([], bits).given == []
  {
  }

  /** Every thread resumed got what it asked for, out of bits that were set when the pass began. */
  lemma {:induction false} PassGives(q: seq<Waiter>, bits: bv32, i: nat)
    requires i < |Pass(q, bits).given|
    ensures Pass(q, bits).given[i].w in q && Proper(Pass(q, bits).given[i].w, Pass(q, bits).given[i].got, bits)
  {
    hide Satisfied, Delivered, Left, Proper, Pass;
    if q == [] {
      NoneGiven(bits);
    } else {
      PassFirst(q, bits);
      if Satisfied(q[0], bits) {
        FirstProper(q, bits);
        if i > 0 {
          PassGives(q[1..], Left(q[0], bits), i - 1);
          StillProper(q, bits, Pass(q[1..], Left(q[0], bits)).given[i - 1]);
        }
      } else {
        PassGives(q[1..], Left(q[0], bits), i);
        StillProper(q, bits, Pass(q[1..], Left(q[0], bits)).given[i]);
      }
    }
  }

  lemma ProperWidens(w: Waiter, d: bv32, few: bv32, many: bv32)
    requires Proper(w, d, few) && Sub(few, many)
    ensures Proper(w, d, many)
  {
    hide And, Sub;
    SubTrans(d, few, many);
  }

  /** Delivery number `j`, or for the number after the last the bits that stay set. */
  function LaterBits(r: Round, j: nat): bv32 {
    if j < |r.given| then r.given[j].got else r.bits
  }

  lemma ProperSub(w: Waiter, d: bv32, bits: bv32)
    requires Proper(w, d, bits)
    ensures Sub(d, bits)
  {
    hide And, Sub;
  }

  lemma LaterSub(q: seq<Waiter>, bits: bv32, j: nat)
    ensures Sub(LaterBits(Pass(q, bits), j), bits)
  {
    hide Satisfied, Delivered, Left, And, Sub, Proper, Pass;
    if j < |Pass(q, bits).given| {
      PassGives(q, bits, j);
      ProperSub(Pass(q, bits).given[j].w, Pass(q, bits).given[j].got, bits);
    } else {
      PassShrinks(q, bits);
    }
  }

  /** What a consuming thread gets, nobody after it gets, and it is not left in the event set. */
  lemma {:induction false} PassConsumesOnce(q: seq<Waiter>, bits: bv32, i: nat, j: nat)
    requires i < |Pass(q, bits).given| && i < j && Pass(q, bits).given[i].w.clear
    ensures Disjoint(Pass(q, bits).given[i].got, LaterBits(Pass(q, bits), j))
  {
    hide Satisfied, Delivered, Left, And, Sub, Disjoint;
    var b := Left(q[0], bits);
    var r := Pass(q[1..], b);
    if Satisfied(q[0], bits) {
      assert LaterBits(Pass(q, bits), j) == LaterBits(r, j - 1);
      if i == 0 {
        LaterSub(q[1..], b, j - 1);
        ConsumedIsGone(q[0], bits, LaterBits(r, j - 1));
      } else {
        PassConsumesOnce(q[1..], b, i - 1, j - 1);
      }
    } else {
      PassConsumesOnce(q[1..], b, i, j);
    }
  }

  function Consumed(given: seq<Delivery>): bv32 {
    if given == [] then 0
    else if given[0].w.clear then Or(given[0].got, Consumed(given[1..]))
    else Consumed(given[1..])
  }

  lemma NothingConsumed()
    ensures Consumed([]) == 0
  {
  }

  lemma ConsumedMore(d: Delivery, given: seq<Delivery>)
    ensures Consumed([d] + given) == if d.w.clear then Or(d.got, Consumed(given)) else Consumed(given)
  {
    hide Or;
    assert ([d] + given)[1..] == given;
  }

  /** The bits left are those the pass began with, without the ones handed to consuming threads. */
  lemma {:induction false} PassLeaves(q: seq<Waiter>, bits: bv32)
    ensures Pass(q, bits).bits == Without(bits, Consumed(Pass(q, bits).given))
  {
    hide Satisfied, Delivered, Left, Or, Without, Consumed;
    if q == [] {
      NothingConsumed();
      WithoutNothing(bits);
    } else {
      var b, d := Left(q[0], bits), Delivered(q[0], bits);
      var r := Pass(q[1..], b);
      PassLeaves(q[1..], b);
      ConsumedMore(Delivery(q[0], d), r.given);
      if Satisfied(q[0], bits) && q[0].clear {
        LeftIs(q[0], bits);
        WithoutTwice(bits, d, Consumed(r.given));
      } else {
        LeftWhole(q[0], bits);
      }
    }
  }

  lemma LeftIs(w: Waiter, bits: bv32)
    requires Satisfied(w, bits) && w.clear
    ensures Left(w, bits) == Without(bits, Delivered(w, bits))
  {
  }

  lemma {:induction false} ConsumedWithin(given: seq<Delivery>, bits: bv32)
    requires forall i :: 0 <= i < |given| ==> Sub(given[i].got, bits)
    ensures Sub(Consumed(given), bits)
    decreases |given|
  {
    hide Sub, Or;
    NothingSub(bits);
    if given != [] {
      assert Sub(given[0].got, bits);
      ConsumedWithin(given[1..], bits);
      OrSub(given[0].got, Consumed(given[1..]), bits);
    }
  }

  /** Conservation: the bits left and those handed to consuming threads make up the bits the pass began with. */
  lemma PassConserves(q: seq<Waiter>, bits: bv32)
    ensures Or(Pass(q, bits).bits, Consumed(Pass(q, bits).given)) == bits
  {
    hide Pass, Or, Sub, Consumed, Proper;
    var r := Pass(q, bits);
    PassLeaves(q, bits);
    forall i | 0 <= i < |r.given|
      ensures Sub(r.given[i].got, bits)
    {
      PassGives(q, bits, i);
      ProperSub(r.given[i].w, r.given[i].got, bits);
    }
    ConsumedWithin(r.given, bits);
    WithoutRestored(bits, Consumed(r.given));
  }

  function Waiters(given: seq<Delivery>): (r: seq<Waiter>)
    ensures |r| == |given| && forall i :: 0 <= i < |given| ==> r[i] == given[i].w
  {
    seq(|given|, i requires 0 <= i < |given| => given[i].w)
  }

  lemma ServedApart(w: Waiter, q: seq<Waiter>, waiting: seq<Waiter>, given: seq<Delivery>, got: bv32)
    requires multiset(q) == multiset(waiting) + multiset(Waiters(given))
    ensures multiset([w] + q) == multiset(waiting) + multiset(Waiters([Delivery(w, got)] + given))
  {
    hide Waiters;
    assert Waiters([Delivery(w, got)] + given) == [w] + Waiters(given);
  }

  lemma KeptApart(w: Waiter, q: seq<Waiter>, waiting: seq<Waiter>, given: seq<Delivery>)
    requires multiset(q) == multiset(waiting) + multiset(Waiters(given))
    ensures multiset([w] + q) == multiset([w] + waiting) + multiset(Waiters(given))
  {
    hide Waiters;
  }

  /** Every thread of the queue is resumed or still waits, and none does both. */
  lemma {:induction false} PassPartitions(q: seq<Waiter>, bits: bv32)
    ensures multiset(q) == multiset(Pass(q, bits).waiting) + multiset(Waiters(Pass(q, bits).given))
  {
    hide Satisfied, Delivered, Left, Waiters;
    if q != [] {
      var r := Pass(q[1..], Left(q[0], bits));
      PassPartitions(q[1..], Left(q[0], bits));
      assert q == [q[0]] + q[1..];
      if Satisfied(q[0], bits) {
        ServedApart(q[0], q[1..], r.waiting, r.given, Delivered(q[0], bits));
      } else {
        KeptApart(q[0], q[1..], r.waiting, r.given);
      }
    }
  }

  // ----- the machine -----

  datatype State = State(bits: bv32, flag: Flag, waiters: seq<Waiter>)

  datatype Label = Send(bits: bv32) | Recv(w: Waiter, wait: bool) | TimeOut(k: nat) | Reset

  predicate WellAsked(w: Waiter) {
    w.want != 0 && (w.all || w.any)
  }

  /** The code asserts that a receiver chooses AND or OR. A receiver that names no bit is refused. */
  predicate Enabled(s: State, l: Label) {
    match l
    case Recv(w, _) => (w.all || w.any) && forall v :: v in s.waiters ==> v.t != w.t
    case TimeOut(k) => k < |s.waiters|
    case _ => true
  }

  function Priorities(q: seq<Waiter>, prio: Tid -> nat): (ps: seq<nat>)
    ensures |ps| == |q| && forall i :: 0 <= i < |q| ==> ps[i] == prio(q[i].t)
  {
    if q == [] then [] else [prio(q[0].t)] + Priorities(q[1..], prio)
  }

  function QueueUp(s: State, w: Waiter, prio: Tid -> nat): seq<Waiter> {
    Insert(s.waiters, EntryPos(Priorities(s.waiters, prio), prio(w.t), s.flag), w)
  }

  /** Bits left when a receiver is served at once: with CLEAR all the bits it named go. */
  function Taken(w: Waiter, bits: bv32): bv32 {
    if w.clear then Without(bits, w.want) else bits
  }

  lemma TakenSub(w: Waiter, bits: bv32)
    ensures Sub(Taken(w, bits), bits)
  {
    hide And, Without, Sub;
    WithoutSub(bits, w.want);
    SubSelf(bits);
  }

  function After(s: State, l: Label, prio: Tid -> nat): State {
    match l
    case Send(bits) =>
      if bits == 0 then s
      else
        var r := Pass(s.waiters, Or(s.bits, bits));
        s.(bits := r.bits, waiters := r.waiting)
    case Recv(w, wait) =>
      if w.want == 0 then s
      else if Satisfied(w, s.bits) then s.(bits := Taken(w, s.bits))
      else if wait then s.(waiters := QueueUp(s, w, prio))
      else s
    case TimeOut(k) => if k < |s.waiters| then s.(waiters := Remove(s.waiters, k)) else s
    case Reset => s.(bits := 0, waiters := [])
  }

  /** No thread that waits is satisfied, and every one of them made a proper request. */
  ghost predicate Invariant(s: State) {
    Quiet(s.waiters, s.bits) && forall w :: w in s.waiters ==> WellAsked(w)
  }

  lemma StillQuiet(q: seq<Waiter>, few: bv32, many: bv32)
    requires Quiet(q, many) && Sub(few, many)
    ensures Quiet(q, few)
  {
    hide Satisfied, And, Sub;
    forall w | w in q
      ensures !Satisfied(w, few)
    {
      if Satisfied(w, few) {
        FewerBits(w, few, many);
      }
    }
  }

  lemma WaitingWasQueued(q: seq<Waiter>, bits: bv32, w: Waiter)
    requires w in Pass(q, bits).waiting
    ensures w in q
  {
    hide Pass;
    PassPartitions(q, bits);
    assert w in multiset(q);
  }

  lemma SendKeeps(s: State, bits: bv32, prio: Tid -> nat)
    requires Invariant(s)
    ensures Invariant(After(s, Send(bits), prio))
  {
    hide Satisfied, Pass, WellAsked, Or;
    var b := Or(s.bits, bits);
    PassQuiets(s.waiters, b);
    forall w | w in Pass(s.waiters, b).waiting
      ensures WellAsked(w)
    {
      WaitingWasQueued(s.waiters, b, w);
    }
  }

  lemma QueueMembers(s: State, w: Waiter, prio: Tid -> nat, v: Waiter)
    requires v in QueueUp(s, w, prio)
    ensures v == w || v in s.waiters
  {
  }

  lemma RecvKeeps(s: State, w: Waiter, wait: bool, prio: Tid -> nat)
    requires Invariant(s) && Enabled(s, Recv(w, wait))
    ensures Invariant(After(s, Recv(w, wait), prio))
  {
    hide Satisfied, And, Sub, Taken, QueueUp;
    if Satisfied(w, s.bits) {
      TakenSub(w, s.bits);
      StillQuiet(s.waiters, Taken(w, s.bits), s.bits);
    } else {
      forall v | v in QueueUp(s, w, prio)
        ensures v == w || v in s.waiters
      {
        QueueMembers(s, w, prio, v);
      }
    }
  }

  /** Every section keeps it: no thread is left waiting for bits that are there. */
  lemma StepKeeps(s: State, l: Label, prio: Tid -> nat)
    requires Invariant(s) && Enabled(s, l)
    ensures Invariant(After(s, l, prio))
  {
    hide Satisfied, Pass, QueueUp, Taken, Or;
    match l {
      case Send(bits) => SendKeeps(s, bits, prio);
      case Recv(w, wait) => RecvKeeps(s, w, wait, prio);
      case _ =>
    }
  }

  ghost predicate Run(states: seq<State>, labels: seq<Label>, prios: seq<Tid -> nat>) {
    && |states| == |labels| + 1 == |prios| + 1 && states[0].waiters == []
    && forall i :: 0 <= i < |labels| ==>
         Enabled(states[i], labels[i]) && states[i + 1] == After(states[i], labels[i], prios[i])
  }

  /** In every reachable state no suspended thread is satisfied by the event set. */
  lemma {:induction false} RunKeeps(states: seq<State>, labels: seq<Label>, prios: seq<Tid -> nat>, k: nat)
    requires Run(states, labels, prios) && k < |states|
    ensures Invariant(states[k])
  {
    hide After, Enabled;
    if k > 0 {
      RunKeeps(states, labels, prios, k - 1);
      StepKeeps(states[k - 1], labels[k - 1], prios[k - 1]);
      assert states[k] == states[k - 1 + 1];
    }
  }

  // ----- what the callers see over a run -----

  /** The threads a section serves, with what they find: those resumed by a send, or the receiver served at once. */
  function Given(s: State, l: Label): seq<Delivery> {
    match l
    case Send(bits) => if bits == 0 then [] else Pass(s.waiters, Or(s.bits, bits)).given
    case Recv(w, _) => if w.want != 0 && Satisfied(w, s.bits) then [Delivery(w, And(s.bits, w.want))] else []
    case _ => []
  }

  /**
   A receiver served at once gets all it wanted, or a non-empty part of it, out of the bits set. With CLEAR none of the
   bits it named stays set; the others, and without CLEAR all bits, stay as they are.
   */
  lemma ServedAtOnce(s: State, w: Waiter, wait: bool, prio: Tid -> nat)
    requires w.want != 0 && Satisfied(w, s.bits)
    ensures var bits := After(s, Recv(w, wait), prio).bits;
            && Given(s, Recv(w, wait)) == [Delivery(w, And(s.bits, w.want))] && Proper(w, And(s.bits, w.want), s.bits)
            && (w.clear ==> Disjoint(bits, w.want) && Without(bits, w.want) == Without(s.bits, w.want))
            && (!w.clear ==> bits == s.bits)
  {
    hide And, Without, Satisfied, Delivered, Proper, Disjoint;
    ReceivedIs(w, s.bits);
    DeliveredProper(w, s.bits);
    WithoutExactly(s.bits, w.want);
  }

  /** After a receiver was served at once, the bits are those before without the ones consumed. */
  lemma RecvLeaves(s: State, w: Waiter, wait: bool, prio: Tid -> nat)
    ensures After(s, Recv(w, wait), prio).bits == Without(s.bits, Consumed(Given(s, Recv(w, wait))))
  {
    hide And, Or, Without, Satisfied, QueueUp;
    WithoutNothing(s.bits);
    if w.want != 0 && Satisfied(w, s.bits) && w.clear {
      var d := Delivery(w, And(s.bits, w.want));
      WithoutMeet(s.bits, w.want);
      assert Consumed([d]) == Or(d.got, Consumed([d][1..])) == Or(d.got, 0);
      OrNothing(d.got);
    }
  }

  /** The bits sent and not yet consumed or reset after `k` sections. */
  function Pending(states: seq<State>, labels: seq<Label>, k: nat): bv32
    requires k <= |labels| < |states|
  {
    if k == 0 then states[0].bits
    else
      var s, l, before := states[k - 1], labels[k - 1], Pending(states, labels, k - 1);
      match l
      case Send(bits) => Without(Or(before, bits), Consumed(Given(s, l)))
      case Recv(_, _) => Without(before, Consumed(Given(s, l)))
      case TimeOut(_) => before
      case Reset => 0
  }

  lemma BitsNext(s: State, l: Label, prio: Tid -> nat)
    ensures l.Send? ==> After(s, l, prio).bits == Without(Or(s.bits, l.bits), Consumed(Given(s, l)))
    ensures l.Recv? ==> After(s, l, prio).bits == Without(s.bits, Consumed(Given(s, l)))
    ensures l.TimeOut? ==> After(s, l, prio).bits == s.bits
    ensures l.Reset? ==> After(s, l, prio).bits == 0
  {
    hide Or, Without, Pass, Satisfied, QueueUp, Taken, And;
    match l {
      case Send(bits) =>
        if bits == 0 {
          OrNothing(s.bits);
          WithoutNothing(s.bits);
        } else {
          PassLeaves(s.waiters, Or(s.bits, bits));
        }
      case Recv(w, wait) => RecvLeaves(s, w, wait, prio);
      case _ =>
    }
  }

  /** In every run a bit is set exactly if it was sent and nobody consumed it, and no reset came, since then. */
  lemma {:induction false} BitsExactly(states: seq<State>, labels: seq<Label>, prios: seq<Tid -> nat>, k: nat)
    requires Run(states, labels, prios) && k < |states|
    ensures states[k].bits == Pending(states, labels, k)
  {
    hide After, Enabled, Given, Without, Or, Consumed;
    if k > 0 {
      BitsExactly(states, labels, prios, k - 1);
      BitsNext(states[k - 1], labels[k - 1], prios[k - 1]);
      assert states[k] == states[k - 1 + 1];
    }
  }

  /** The bits that the sections i..k send. */
  function SentBetween(labels: seq<Label>, i: nat, k: nat): bv32
    requires k <= |labels|
  {
    if k <= i then 0
    else Or(SentBetween(labels, i, k - 1), if labels[k - 1].Send? then labels[k - 1].bits else 0)
  }

  lemma GivenApart(s: State, l: Label, prio: Tid -> nat, m: nat)
    requires m < |Given(s, l)| && Given(s, l)[m].w.clear
    ensures Disjoint(Given(s, l)[m].got, After(s, l, prio).bits)
  {
    hide And, Or, Without, Satisfied, Pass, QueueUp, Disjoint;
    match l {
      case Send(bits) => PassConsumesOnce(s.waiters, Or(s.bits, bits), m, |Given(s, l)|);
      case Recv(w, wait) =>
        WithoutSelf(s.bits, w.want);
    }
  }

  lemma WithoutSelf(a: bv32, b: bv32)
    ensures Disjoint(And(a, b), Without(a, b))
  {
    hide And, Sub, Disjoint, Without;
    WithoutGone(a, b, Without(a, b));
    SubSelf(Without(a, b));
    AndSub(a, b);
    FewerMeet(And(a, b), b, Without(a, b));
  }

  lemma FewerMeet(few: bv32, many: bv32, a: bv32)
    requires Sub(few, many) && Disjoint(many, a)
    ensures Disjoint(few, a)
  {
    hide And, Sub;
    AndCommutes(many, a);
    AndCommutes(few, a);
    MeetsMore(a, few, many);
  }

  /** What a section gives and what it leaves was set before or is sent by it. */
  lemma OutOfBits(s: State, l: Label, prio: Tid -> nat, n: nat)
    ensures var sent := Or(s.bits, if l.Send? then l.bits else 0);
            && Sub(After(s, l, prio).bits, sent) && (n < |Given(s, l)| ==> Sub(Given(s, l)[n].got, sent))
  {
    hide And, Or, Without, Satisfied, Pass, QueueUp, Sub, Taken;
    OrNothing(s.bits);
    SubSelf(s.bits);
    match l {
      case Send(bits) =>
        if bits != 0 {
          PassShrinks(s.waiters, Or(s.bits, bits));
          LaterSub(s.waiters, Or(s.bits, bits), n);
        }
      case Recv(w, _) =>
        TakenSub(w, s.bits);
        AndSub(s.bits, w.want);
      case Reset => NothingSub(s.bits);
      case _ =>
    }
  }

  /** Of the bits a consuming thread got at section `i`, only those sent again since then are set. */
  lemma {:induction false} StaysGone(states: seq<State>, labels: seq<Label>, prios: seq<Tid -> nat>, i: nat, m: nat, k: nat)
    requires Run(states, labels, prios) && i < k < |states|
    requires m < |Given(states[i], labels[i])| && Given(states[i], labels[i])[m].w.clear
    ensures Sub(And(Given(states[i], labels[i])[m].got, states[k].bits), SentBetween(labels, i + 1, k))
  {
    hide And, Or, Sub, Disjoint, After, Enabled, Given;
    var g := Given(states[i], labels[i])[m].got;
    assert states[k] == states[k - 1 + 1];
    if k == i + 1 {
      GivenApart(states[i], labels[i], prios[i], m);
      ApartMeet(g, states[k].bits);
    } else {
      StaysGone(states, labels, prios, i, m, k - 1);
      OutOfBits(states[k - 1], labels[k - 1], prios[k - 1], 0);
      SharesNew(g, states[k - 1].bits, if labels[k - 1].Send? then labels[k - 1].bits else 0, states[k].bits,
                SentBetween(labels, i + 1, k - 1));
    }
  }

  /**
   In every run: of the bits that a CLEAR receiver got, at once or by a send, a receiver served by a later section gets
   only those that a send set again in between.
   */
  lemma ConsumedOnce(states: seq<State>, labels: seq<Label>, prios: seq<Tid -> nat>, i: nat, m: nat, k: nat, n: nat)
    requires Run(states, labels, prios) && i < k < |labels|
    requires m < |Given(states[i], labels[i])| && Given(states[i], labels[i])[m].w.clear
    requires n < |Given(states[k], labels[k])|
    ensures Sub(And(Given(states[i], labels[i])[m].got, Given(states[k], labels[k])[n].got),
                SentBetween(labels, i + 1, k + 1))
  {
    hide And, Or, Sub, Given, After, Enabled;
    StaysGone(states, labels, prios, i, m, k);
    OutOfBits(states[k], labels[k], prios[k], n);
    SharesNew(Given(states[i], labels[i])[m].got, states[k].bits, if labels[k].Send? then labels[k].bits else 0,
              Given(states[k], labels[k])[n].got, SentBetween(labels, i + 1, k));
  }

  /** A thread waits from a receive that blocked until a send serves it, its timer fires, or a reset. */
  predicate WaitsFor(states: seq<State>, labels: seq<Label>, k: nat, w: Waiter)
    requires k <= |labels| < |states|
  {
    k > 0 &&
    var s, l := states[k - 1], labels[k - 1];
    match l
    case Recv(v, wait) =>
      if v == w then w.want != 0 && wait && Given(s, l) == [] else WaitsFor(states, labels, k - 1, w)
    case Send(_) => WaitsFor(states, labels, k - 1, w) && w !in Waiters(Given(s, l))
    case TimeOut(n) => WaitsFor(states, labels, k - 1, w) && !(n < |s.waiters| && s.waiters[n] == w)
    case Reset => false
  }

  ghost predicate NoneTwice(q: seq<Waiter>) {
    forall w :: multiset(q)[w] <= 1
  }

  lemma InsertBag(q: seq<Waiter>, k: nat, w: Waiter)
    requires k <= |q|
    ensures multiset(Insert(q, k, w)) == multiset(q) + multiset{w}
  {
    assert q == q[..k] + q[k..];
  }

  lemma RemoveBag(q: seq<Waiter>, k: nat)
    requires k < |q|
    ensures multiset(q) == multiset(Remove(q, k)) + multiset{q[k]}
  {
    assert q == q[..k] + ([q[k]] + q[k + 1..]);
  }

  lemma PassWaiters(q: seq<Waiter>, bits: bv32, w: Waiter)
    requires NoneTwice(q)
    ensures NoneTwice(Pass(q, bits).waiting)
    ensures w in Pass(q, bits).waiting <==> w in q && w !in Waiters(Pass(q, bits).given)
  {
    hide Pass, Waiters;
    var r := Pass(q, bits);
    PassPartitions(q, bits);
    forall v
      ensures multiset(r.waiting)[v] <= 1
    {
      assert multiset(q)[v] == multiset(r.waiting)[v] + multiset(Waiters(r.given))[v];
    }
    assert w in q <==> multiset(q)[w] > 0;
    assert w in r.waiting <==> multiset(r.waiting)[w] > 0;
    assert w in Waiters(r.given) <==> multiset(Waiters(r.given))[w] > 0;
  }

  /** Who waits after a section. */
  lemma WaitersNext(s: State, l: Label, prio: Tid -> nat, w: Waiter)
    requires Enabled(s, l) && NoneTwice(s.waiters)
    ensures NoneTwice(After(s, l, prio).waiters)
    ensures w in After(s, l, prio).waiters <==>
              match l
              case Recv(v, wait) => w in s.waiters || (w == v && w.want != 0 && wait && Given(s, l) == [])
              case Send(_) => w in s.waiters && w !in Waiters(Given(s, l))
              case TimeOut(n) => w in s.waiters && w != s.waiters[n]
              case Reset => false
  {
    hide Satisfied, Pass, Insert, Remove, Or, And, Taken, EntryPos, Priorities, Waiters;
    var s' := After(s, l, prio);
    assert w in s.waiters <==> multiset(s.waiters)[w] > 0;
    assert w in s'.waiters <==> multiset(s'.waiters)[w] > 0;
    match l {
      case Send(bits) =>
        if bits != 0 {
          PassWaiters(s.waiters, Or(s.bits, bits), w);
        }
      case Recv(v, _) =>
        var k := EntryPos(Priorities(s.waiters, prio), prio(v.t), s.flag);
        InsertBag(s.waiters, k, v);
        assert multiset(s.waiters)[v] > 0 ==> v in s.waiters;
      case TimeOut(n) =>
        RemoveBag(s.waiters, n);
      case Reset =>
    }
  }

  /** No waiter is lost and none is left behind. */
  lemma {:induction false} WaitersExactly(states: seq<State>, labels: seq<Label>, prios: seq<Tid -> nat>, k: nat, w: Waiter)
    requires Run(states, labels, prios) && k < |states|
    ensures NoneTwice(states[k].waiters) && (w in states[k].waiters <==> WaitsFor(states, labels, k, w))
  {
    hide After, Given;
    if k > 0 {
      WaitersExactly(states, labels, prios, k - 1, w);
      WaitersNext(states[k - 1], labels[k - 1], prios[k - 1], w);
      assert states[k] == states[k - 1 + 1];
    }
  }

  // ----- the order of the queue -----

  function Threads(q: seq<Waiter>): (ts: seq<Tid>)
    ensures |ts| == |q| && forall i :: 0 <= i < |q| ==> ts[i] == q[i].t
  {
    seq(|q|, i requires 0 <= i < |q| => q[i].t)
  }

  lemma QueueUpIs(s: State, w: Waiter, prio: Tid -> nat)
    ensures Threads(QueueUp(s, w, prio)) == Enqueue(Threads(s.waiters), w.t, s.flag, prio)
  {
    hide EntryPos;
    assert Priorities(s.waiters, prio) == PriosOf(Threads(s.waiters), prio);
    var k := EntryPos(Priorities(s.waiters, prio), prio(w.t), s.flag);
    ThreadsInsert(s.waiters, k, w);
  }

  lemma ThreadsInsert(q: seq<Waiter>, k: nat, w: Waiter)
    requires k <= |q|
    ensures Threads(Insert(q, k, w)) == Insert(Threads(q), k, w.t)
  {
  }

  lemma ThreadsRemove(q: seq<Waiter>, k: nat)
    requires k < |q|
    ensures Threads(Remove(q, k)) == Remove(Threads(q), k)
  {
  }

  /** The threads a pass leaves keep their order. */
  lemma {:induction false} PassOrdered(q: seq<Waiter>, bits: bv32, flag: Flag, prio: Tid -> nat, stamp: Tid -> nat)
    requires Ordered(Threads(q), flag, prio, stamp)
    ensures Ordered(Threads(Pass(q, bits).waiting), flag, prio, stamp)
  {
    hide Satisfied, Delivered, Left, Before;
    if q != [] {
      var b := Left(q[0], bits);
      RestOrdered(q, flag, prio, stamp);
      PassOrdered(q[1..], b, flag, prio, stamp);
      var r := Pass(q[1..], b).waiting;
      if !Satisfied(q[0], bits) {
        forall w | w in r
          ensures Before(q[0].t, w.t, flag, prio, stamp)
        {
          WaitingWasQueued(q[1..], b, w);
        }
        FrontOrdered(q[0], r, flag, prio, stamp);
      }
    }
  }

  lemma RestOrdered(q: seq<Waiter>, flag: Flag, prio: Tid -> nat, stamp: Tid -> nat)
    requires q != [] && Ordered(Threads(q), flag, prio, stamp)
    ensures Ordered(Threads(q[1..]), flag, prio, stamp)
    ensures forall w :: w in q[1..] ==> Before(q[0].t, w.t, flag, prio, stamp)
  {
    hide Before;
    var ts := Threads(q);
    assert Threads(q[1..]) == ts[1..];
    forall w | w in q[1..]
      ensures Before(q[0].t, w.t, flag, prio, stamp)
    {
      var j :| 0 < j < |q| && q[j] == w;
      assert Before(ts[0], ts[j], flag, prio, stamp);
    }
  }

  lemma FrontOrdered(w: Waiter, r: seq<Waiter>, flag: Flag, prio: Tid -> nat, stamp: Tid -> nat)
    requires Ordered(Threads(r), flag, prio, stamp)
    requires forall v :: v in r ==> Before(w.t, v.t, flag, prio, stamp)
    ensures Ordered(Threads([w] + r), flag, prio, stamp)
  {
    hide Before;
    var ts := Threads(r);
    assert Threads([w] + r) == [w.t] + ts;
  }

  /** When the threads came: the receives of a run. */
  function Comings(labels: seq<Label>): (acts: seq<Act>)
    ensures |acts| == |labels|
    ensures forall i :: 0 <= i < |acts| ==> acts[i] == if labels[i].Recv? then Looks(labels[i].w.t, true) else Idle
  {
    seq(|labels|, i requires 0 <= i < |labels| => if labels[i].Recv? then Looks(labels[i].w.t, true) else Idle)
  }

  lemma OrderNext(s: State, l: Label, prio: Tid -> nat, stamp: Tid -> nat)
    requires Enabled(s, l) && Ordered(Threads(s.waiters), s.flag, prio, stamp)
    requires l.Recv? ==> forall t :: t in Threads(s.waiters) ==> stamp(t) < stamp(l.w.t)
    ensures Ordered(Threads(After(s, l, prio).waiters), s.flag, prio, stamp)
  {
    hide Ordered, Pass, Satisfied, QueueUp, Enqueue, Remove, Taken;
    match l {
      case Send(bits) => PassOrdered(s.waiters, Or(s.bits, bits), s.flag, prio, stamp);
      case Recv(w, _) =>
        EnqueueOrdered(Threads(s.waiters), w.t, s.flag, prio, stamp);
        QueueUpIs(s, w, prio);
      case TimeOut(k) =>
        ThreadsRemove(s.waiters, k);
        RemoveOrdered(Threads(s.waiters), k, s.flag, prio, stamp);
      case Reset => NobodyOrdered(s.flag, prio, stamp);
    }
  }

  lemma NobodyOrdered(flag: Flag, prio: Tid -> nat, stamp: Tid -> nat)
    ensures Ordered(Threads([]), flag, prio, stamp)
  {
  }

  lemma NotQueued(s: State, w: Waiter, wait: bool)
    requires Enabled(s, Recv(w, wait))
    ensures w.t !in Threads(s.waiters)
  {
  }

  /** In every run the waiters, and so the walk of a send, stand in the order the flag asks for. */
  lemma {:induction false} WaitsInTurn(states: seq<State>, labels: seq<Label>, prios: seq<Tid -> nat>, k: nat,
                                       prio: Tid -> nat)
    requires Run(states, labels, prios) && k < |states|
    requires Steady(states[0].flag, prios, k, prio)
    ensures states[k].flag == states[0].flag
    ensures Ordered(Threads(states[k].waiters), states[0].flag, prio, Arrival(Comings(labels), k))
  {
    hide Before, After, Enabled, Came, Ordered;
    var acts, flag := Comings(labels), states[0].flag;
    if k == 0 {
      NobodyOrdered(flag, prio, Arrival(acts, k));
    } else {
      WaitsInTurn(states, labels, prios, k - 1, prio);
      var s, l, p := states[k - 1], labels[k - 1], prios[k - 1];
      assert states[k - 1 + 1] == After(s, l, p) && Enabled(s, l);
      FlagKept(s, l, p);
      CameNext(acts, k);
      if l.Recv? {
        NotQueued(s, l.w, l.wait);
      }
      OrderedAlike(Threads(s.waiters), flag, prio, p, Arrival(acts, k - 1), Arrival(acts, k));
      OrderNext(s, l, p, Arrival(acts, k));
      OrderedAlike(Threads(states[k].waiters), flag, p, prio, Arrival(acts, k), Arrival(acts, k));
    }
  }

  lemma FlagKept(s: State, l: Label, prio: Tid -> nat)
    ensures After(s, l, prio).flag == s.flag
  {
  }

  // ----- the code -----

  /** A pass under way: `kept` and `given` are settled, `rest` is what the remaining queue comes to. */
  function Onward(kept: seq<Waiter>, given: seq<Delivery>, rest: Round): Round {
    Round(rest.bits, kept + rest.waiting, given + rest.given)
  }

  lemma OnwardServed(kept: seq<Waiter>, given: seq<Delivery>, q: seq<Waiter>, bits: bv32)
    requires q != [] && Satisfied(q[0], bits)
    ensures Onward(kept, given + [Delivery(q[0], Delivered(q[0], bits))], Pass(q[1..], Left(q[0], bits)))
         == Onward(kept, given, Pass(q, bits))
  {
    hide Satisfied, Left, Delivered;
    var r, d := Pass(q[1..], Left(q[0], bits)), [Delivery(q[0], Delivered(q[0], bits))];
    assert (given + d) + r.given == given + (d + r.given);
  }

  lemma OnwardKept(kept: seq<Waiter>, given: seq<Delivery>, q: seq<Waiter>, bits: bv32)
    requires q != [] && !Satisfied(q[0], bits)
    ensures Onward(kept + [q[0]], given, Pass(q[1..], bits)) == Onward(kept, given, Pass(q, bits))
  {
    hide Satisfied, Left, Delivered;
    LeftWhole(q[0], bits);
    var r := Pass(q[1..], bits);
    assert (kept + [q[0]]) + r.waiting == kept + ([q[0]] + r.waiting);
  }

  /** The AND and OR comparisons of rt_event_send, and what they leave in the thread's event_set. */
  method Matches(thread: Waiter, bits: bv32) returns (served: bool, d: bv32)
    requires thread.all || thread.any
    ensures served == Satisfied(thread, bits) && (served ==> d == Delivered(thread, bits))
  {
    hide And;
    served, d := false, thread.want;
    if thread.all {
      if And(thread.want, bits) == thread.want {
        served := true;
      }
    } else if thread.any {
      if And(thread.want, bits) != 0 {
        d := And(thread.want, bits);
        served := true;
      }
    } else {
      assert false;  // the EINVAL return is out of reach: every waiter chose AND or OR
    }
  }

  /** The comparisons of rt_event_recv. */
  method Arrived(w: Waiter, bits: bv32) returns (served: bool)
    requires w.all || w.any
    ensures served == Satisfied(w, bits)
  {
    hide And;
    AndCommutes(bits, w.want);
    served := false;
    if w.all {
      if And(bits, w.want) == w.want {
        served := true;
      }
    } else if w.any {
      if And(bits, w.want) != 0 {
        served := true;
      }
    } else {
      assert false;  // what the code asserts
    }
  }

  /** What is received at once is what a delivery would have been. */
  lemma ReceivedIs(w: Waiter, bits: bv32)
    requires Satisfied(w, bits)
    ensures And(bits, w.want) == Delivered(w, bits)
  {
    hide And;
    AndCommutes(bits, w.want);
  }

  class EventObject {
    var bits: bv32
    var waiters: seq<Waiter>  // parent.suspend_thread
    const flag: Flag

    ghost function Abstract(): State
      reads this
    {
      State(bits, flag, waiters)
    }

    ghost predicate Valid()
      reads this
    {
      Invariant(Abstract())
    }

    constructor (flag: Flag)
      ensures Valid() && Abstract() == State(0, flag, [])
    {
      bits, waiters, this.flag := 0, [], flag;
    }

    /** What rt_event_send does with the thread at place `n` of the list; the walk has moved on when it leaves. */
    method Look(n: nat) returns (served: bool, d: bv32)
      requires n < |waiters| && (waiters[n].all || waiters[n].any)
      modifies this`bits, this`waiters
      ensures served == Satisfied(old(waiters[n]), old(bits))
      ensures served ==> d == Delivered(old(waiters[n]), old(bits))
      ensures bits == Left(old(waiters[n]), old(bits))
      ensures waiters == if served then Remove(old(waiters), n) else old(waiters)
    {
      var thread := waiters[n];
      served, d := Matches(thread, bits);
      hide Satisfied, Delivered, Without;
      if served {
        if thread.clear {
          bits := Without(bits, d);
        }
        waiters := Remove(waiters, n);
      }
    }

    /** The walk of rt_event_send along the queue; `given` names the threads resumed and what they find. */
    method Walk() returns (given: seq<Delivery>)
      requires AllChosen(waiters)
      modifies this`bits, this`waiters
      ensures Round(bits, waiters, given) == Pass(old(waiters), old(bits))
    {
      hide Satisfied, Left, Delivered, Pass, Onward;
      ghost var q, b := waiters, bits;
      given := [];
      var n := 0;
      EmptyPass(waiters, bits);
      while n < |waiters|
        invariant n <= |waiters| && AllChosen(waiters)
        invariant Onward(waiters[..n], given, Pass(waiters[n..], bits)) == Pass(q, b)
        decreases |waiters| - n
      {
        var before := waiters;
        ghost var bitsBefore := bits;
        var served, d := Look(n);
        Suffix(before, n);
        if served {
          OnwardServed(before[..n], given, before[n..], bitsBefore);
          given := given + [Delivery(before[n], d)];
          RemoveAt(before, n);
        } else {
          LeftWhole(before[n], bitsBefore);
          OnwardKept(before[..n], given, before[n..], bitsBefore);
          n := n + 1;
        }
      }
      EndPass(waiters, n, given, bits);
    }

    /** rt_event_send. */
    method SendSection(sent: bv32, ghost prio: Tid -> nat) returns (r: Outcome, given: seq<Delivery>)
      requires Valid()
      modifies this
      ensures Valid() && Abstract() == After(old(Abstract()), Send(sent), prio)
      ensures r == if sent == 0 then Failed(-RT_ERROR) else Ok
      ensures given == if sent == 0 then [] else Pass(old(waiters), Or(old(bits), sent)).given
    {
      hide Satisfied, Left, Delivered, Pass, Invariant, Or;
      StepKeeps(Abstract(), Send(sent), prio);
      WellChosen(Abstract());
      given := [];
      if sent == 0 {
        return Failed(-RT_ERROR), given;
      }
      bits := Or(bits, sent);
      if waiters != [] {
        given := Walk();
      } else {
        PassNobody(bits);
      }
      r := Ok;
    }

    /** rt_event_recv up to its re-scheduling. */
    method RecvSection(t: Tid, want: bv32, all: bool, any: bool, clear: bool, timeout: int, prio: Tid -> nat)
      returns (r: Outcome, recved: bv32)
      requires Valid() && Enabled(Abstract(), Recv(Waiter(t, want, all, any, clear), timeout != 0))
      modifies this
      ensures Valid()
      ensures Abstract() == After(old(Abstract()), Recv(Waiter(t, want, all, any, clear), timeout != 0), prio)
      ensures r == if want == 0 then Failed(-RT_ERROR)
                   else if Satisfied(Waiter(t, want, all, any, clear), old(bits)) then Ok
                   else if timeout == 0 then Failed(-RT_ETIMEOUT) else Blocked
      ensures r == Ok ==> recved == And(old(bits), want)
      ensures r == Ok && clear ==> Disjoint(bits, want) && Without(bits, want) == Without(old(bits), want)
      ensures !(r == Ok && clear) ==> bits == old(bits)
    {
      hide Satisfied, Delivered, Invariant, Pass, QueueUp, And, Or, Without, Disjoint;
      var w := Waiter(t, want, all, any, clear);
      StepKeeps(Abstract(), Recv(w, timeout != 0), prio);
      recved := 0;
      if want == 0 {
        return Failed(-RT_ERROR), recved;
      }
      var status := Arrived(w, bits);
      if status {
        recved := And(bits, want);
        WithoutExactly(bits, want);
        if clear {
          bits := Without(bits, want);
        }
        r := Ok;
      } else if timeout == 0 {
        r := Failed(-RT_ETIMEOUT);
      } else {
        waiters := QueueUp(State(bits, flag, waiters), w, prio);
        r := Blocked;
      }
    }

    /** rt_event_control with RT_IPC_CMD_RESET. */
    method ResetSection(ghost prio: Tid -> nat)
      modifies this
      ensures Valid() && Abstract() == After(old(Abstract()), Reset, prio)
    {
      waiters := [];
      bits := 0;
    }
  }

  lemma PassNobody(bits: bv32)
    ensures Pass([], bits) == Round(bits, [], [])
  {
  }

  lemma Suffix(q: seq<Waiter>, n: nat)
    requires n < |q|
    ensures q[n..] != [] && q[n..][0] == q[n] && q[n..][1..] == q[n + 1..] && q[..n] + [q[n]] == q[..n + 1]
  {
  }

  predicate AllChosen(q: seq<Waiter>) {
    forall w :: w in q ==> w.all || w.any
  }

  lemma WellChosen(s: State)
    requires Invariant(s)
    ensures AllChosen(s.waiters)
  {
  }

  lemma EmptyPass(q: seq<Waiter>, bits: bv32)
    ensures Onward(q[..0], [], Pass(q[0..], bits)) == Pass(q, bits)
  {
  }

  lemma EndPass(q: seq<Waiter>, n: nat, given: seq<Delivery>, bits: bv32)
    requires n == |q|
    ensures Onward(q[..n], given, Pass(q[n..], bits)) == Round(bits, q, given)
  {
  }

  lemma RemoveAt<T>(q: seq<T>, n: nat)
    requires n < |q|
    ensures Remove(q, n)[..n] == q[..n] && Remove(q, n)[n..] == q[n + 1..]
    ensures forall x :: x in Remove(q, n) ==> x in q
  {
  }
}
