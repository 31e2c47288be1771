/**
 * The debugger's queue (lock_free_queue.h): one producer, one consumer and no lock. Each statement of produce and
 * consume is one step, and the steps of the two interleave in any order (sequential consistency).
 */
module QueueSteps {
  import opened Bytes

  /** An iterator: at a node, which stays itself as others come and go, or at the end of the list. */
  datatype Iterator = At(node: nat) | End

  /** The fields of the queue, and the nodes of its std::list in order. */
  datatype Queue<T> = Queue(
    list: seq<nat>, value: map<nat, T>, first: Iterator, divider: Iterator, last: Iterator, next: nat)

  /** Where produce stands, with its local variables: lLastInc as `inc`, lFirstDec as `dec`. */
  datatype Producer<T> =
    | Out
    | Copied(v: T, inc: Iterator)
    | Advanced(v: T, inc: Iterator)
    | Inserted(v: T, inc: Iterator)
    | Testing
    | Entered
    | Moved
    | DecCopied(dec: Iterator)
    | DecMoved(dec: Iterator)

  /** Where consume stands, with its local variable lDividerInc as `inc`. */
  datatype Consumer<T> =
    | Idle
    | Passed
    | IncCopied(inc: Iterator)
    | IncMoved(inc: Iterator)
    | Read(inc: Iterator, result: T)

  /** `produced` gets the argument of produce when theLast is set, `consumed` the result when theDivider is. */
  datatype State<T> = State(
    q: Queue<T>, producer: Producer<T>, consumer: Consumer<T>, produced: seq<T>, consumed: seq<T>)

  // ---- The list

  predicate IsNode<T>(q: Queue<T>, i: Iterator) { i.At? && i.node in q.list }

  function IndexOf(list: seq<nat>, n: nat): (i: nat)
    requires n in list
    ensures i < |list| && list[i] == n && forall j :: 0 <= j < i ==> list[j] != n
  {
    if list[0] == n then 0 else 1 + IndexOf(list[1..], n)
  }

  /** ++i and --i. */
  function Successor<T>(q: Queue<T>, i: Iterator): Iterator
    requires IsNode(q, i)
  {
    var k := IndexOf(q.list, i.node);
    if k + 1 < |q.list| then At(q.list[k + 1]) else End
  }

  function Predecessor<T>(q: Queue<T>, i: Iterator): Iterator
    requires IsNode(q, i)
  {
    var k := IndexOf(q.list, i.node);
    if k > 0 then At(q.list[k - 1]) else End
  }

  /** insert(i, v): a new node in front of i. */
  function Insert<T>(q: Queue<T>, i: Iterator, v: T): Queue<T>
    requires i == End || IsNode(q, i)
  {
    var k := if i == End then |q.list| else IndexOf(q.list, i.node);
    q.(list := q.list[..k] + [q.next] + q.list[k..], value := q.value[q.next := v], next := q.next + 1)
  }

  function Erase<T>(q: Queue<T>, i: Iterator): Queue<T>
    requires IsNode(q, i)
  {
    q.(list := Without(q.list, i.node), value := q.value - {i.node})
  }

  // ---- Steps

  datatype Step<T> = Produce(v: T) | ProducerStep | Consume | ConsumerStep

  function Initial<T>(t: T): State<T> {
    State(Queue([0], map[0 := t], At(0), At(0), At(0), 1), Out, Idle, [], [])
  }

  predicate Enabled<T>(s: State<T>, step: Step<T>) {
    match step
    case Produce(_) => s.producer.Out?
    case ProducerStep => !s.producer.Out?
    case Consume => s.consumer.Idle?
    case ConsumerStep => !s.consumer.Idle?
  }

  /** Every iterator that the step moves, dereferences or erases is at a node of the list. */
  predicate Safe<T>(s: State<T>, step: Step<T>) {
    match step
    case Produce(_) => true
    case ProducerStep => (
      match s.producer
      case Copied(_, inc) => IsNode(s.q, inc)
      case Advanced(_, inc) => inc == End || IsNode(s.q, inc)
      case Entered => IsNode(s.q, s.q.first)
      case DecCopied(dec) => IsNode(s.q, dec) && Predecessor(s.q, dec).At?
      case DecMoved(dec) => IsNode(s.q, dec)
      case _ => true)
    case Consume => true
    case ConsumerStep => (
      match s.consumer
      case IncCopied(inc) => IsNode(s.q, inc) && Successor(s.q, inc).At?
      case IncMoved(inc) => IsNode(s.q, inc) && inc.node in s.q.value
      case _ => true)
  }

  function ProducerNext<T>(s: State<T>): State<T>
    requires !s.producer.Out? && Safe(s, ProducerStep)
  {
    match s.producer
    case Copied(v, inc) => s.(producer := Advanced(v, Successor(s.q, inc)))
    case Advanced(v, inc) => s.(q := Insert(s.q, inc, v), producer := Inserted(v, At(s.q.next)))
    case Inserted(v, inc) => s.(q := s.q.(last := inc), producer := Testing, produced := s.produced + [v])
    case Testing => s.(producer := if s.q.first != s.q.divider then Entered else Out)
    case Entered => s.(q := s.q.(first := Successor(s.q, s.q.first)), producer := Moved)
    case Moved => s.(producer := DecCopied(s.q.first))
    case DecCopied(dec) => s.(producer := DecMoved(Predecessor(s.q, dec)))
    case DecMoved(dec) => s.(q := Erase(s.q, dec), producer := Testing)
  }

  function ConsumerNext<T>(s: State<T>): State<T>
    requires !s.consumer.Idle? && Safe(s, ConsumerStep)
  {
    match s.consumer
    case Passed => s.(consumer := IncCopied(s.q.divider))
    case IncCopied(inc) => s.(consumer := IncMoved(Successor(s.q, inc)))
    case IncMoved(inc) => s.(consumer := Read(inc, s.q.value[inc.node]))
    case Read(inc, result) => s.(q := s.q.(divider := inc), consumer := Idle, consumed := s.consumed + [result])
  }

  /** The state after a step. consume returns false where it finds the divider at the last node. */
  function Next<T>(s: State<T>, step: Step<T>): State<T>
    requires Enabled(s, step) && Safe(s, step)
  {
    match step
    case Produce(v) => s.(producer := Copied(v, s.q.last))
    case ProducerStep => ProducerNext(s)
    case Consume => if s.q.divider != s.q.last then s.(consumer := Passed) else s
    case ConsumerStep => ConsumerNext(s)
  }

  // ---- What holds at every step

  predicate Consecutive(list: seq<nat>, end: nat) {
    list != [] && (forall i :: 0 <= i < |list| ==> list[i] == list[0] + i) && list[0] + |list| == end
  }

  lemma ConsecutiveIndex(list: seq<nat>, end: nat, n: nat)
    requires Consecutive(list, end)
    ensures n in list <==> list[0] <= n < end
    ensures n in list ==> IndexOf(list, n) == n - list[0]
  {
    if list[0] <= n < end { assert list[n - list[0]] == n; }
  }

  /** The nodes in order, from the oldest not erased; the three iterators at nodes, in order. */
  predicate ListOk<T>(q: Queue<T>) {
    && Consecutive(q.list, q.next) && q.first.At? && q.divider.At? && q.last.At?
    && q.list[0] <= q.first.node <= q.divider.node <= q.last.node < q.next
    && forall n :: q.list[0] <= n < q.next ==> n in q.value
  }

  predicate ProducerOk<T(==)>(s: State<T>)
    requires ListOk(s.q)
  {
    var q := s.q;
    && (if s.producer.Inserted? then
          q.last.node + 2 == q.next && s.producer.inc == At(q.next - 1) && q.value[q.next - 1] == s.producer.v
        else q.last.node + 1 == q.next)
    && (s.producer.Copied? ==> s.producer.inc == q.last)
    && (s.producer.Advanced? ==> s.producer.inc == End)
    && (s.producer.Entered? ==> q.first.node < q.divider.node)
    && (if s.producer.Moved? || s.producer.DecCopied? || s.producer.DecMoved? then q.list[0] + 1 == q.first.node
        else q.list[0] == q.first.node)
    && (s.producer.DecCopied? ==> s.producer.dec == q.first)
    && (s.producer.DecMoved? ==> s.producer.dec == At(q.list[0]))
  }

  predicate ConsumerOk<T(==)>(s: State<T>)
    requires ListOk(s.q)
  {
    var q := s.q;
    && (!s.consumer.Idle? ==> q.divider.node < q.last.node)
    && (s.consumer.IncCopied? ==> s.consumer.inc == q.divider)
    && (s.consumer.IncMoved? || s.consumer.Read? ==> s.consumer.inc == At(q.divider.node + 1))
    && (s.consumer.Read? ==> s.consumer.result == q.value[q.divider.node + 1])
  }

  /** The nodes up to the last hold the values produced, the divider is at the last one consumed. */
  predicate HistoryOk<T(==)>(s: State<T>)
    requires ListOk(s.q)
  {
    var q := s.q;
    && |s.produced| == q.last.node
    && (forall n :: q.list[0] <= n <= q.last.node && n > 0 ==> q.value[n] == s.produced[n - 1])
    && s.consumed == s.produced[..q.divider.node]
  }

  predicate Inv<T(==)>(s: State<T>) { ListOk(s.q) && ProducerOk(s) && ConsumerOk(s) && HistoryOk(s) }

  lemma InitialInv<T>(t: T)
    ensures Inv(Initial(t))
  {
  }

  lemma InvIsSafe<T>(s: State<T>, step: Step<T>)
    requires Inv(s) && Enabled(s, step)
    ensures Safe(s, step)
  {
    ConsecutiveIndex(s.q.list, s.q.next, s.q.first.node);
    ConsecutiveIndex(s.q.list, s.q.next, s.q.last.node);
    ConsecutiveIndex(s.q.list, s.q.next, s.q.divider.node);
    ConsecutiveIndex(s.q.list, s.q.next, s.q.divider.node + 1);
    ConsecutiveIndex(s.q.list, s.q.next, s.q.list[0]);
  }

  lemma SuccessorIs<T>(q: Queue<T>, i: Iterator)
    requires ListOk(q) && IsNode(q, i)
    ensures Successor(q, i) == if i.node + 1 < q.next then At(i.node + 1) else End
    ensures Predecessor(q, i) == if i.node > q.list[0] then At(i.node - 1) else End
  {
    ConsecutiveIndex(q.list, q.next, i.node);
  }

  lemma InsertAtEnd<T>(q: Queue<T>, v: T)
    requires ListOk(q)
    ensures var r := Insert(q, End, v);
      && ListOk(r) && r.list == q.list + [q.next] && r.value == q.value[q.next := v] && r.next == q.next + 1
      && r.first == q.first && r.divider == q.divider && r.last == q.last
  {
    assert q.list[..|q.list|] == q.list && q.list[|q.list|..] == [];
  }

  lemma EraseOldest<T>(q: Queue<T>)
    requires ListOk(q) && q.list[0] < q.first.node
    ensures var r := Erase(q, At(q.list[0]));
      ListOk(r) && r.list == q.list[1..] && r.list[0] == q.list[0] + 1 && r.next == q.next
      && r.first == q.first && r.divider == q.divider && r.last == q.last
      && forall n :: r.list[0] <= n < r.next ==> r.value[n] == q.value[n]
  {
    assert q.list[1..][0] == q.list[1];
  }

  lemma InsertKeepsInv<T>(s: State<T>)
    requires Inv(s) && s.producer.Advanced?
    ensures Safe(s, ProducerStep) && Inv(ProducerNext(s))
  {
    InsertAtEnd(s.q, s.producer.v);
  }

  lemma EraseKeepsInv<T>(s: State<T>)
    requires Inv(s) && s.producer.DecMoved?
    ensures Safe(s, ProducerStep) && Inv(ProducerNext(s))
  {
    InvIsSafe(s, ProducerStep);
    EraseOldest(s.q);
  }

  lemma MoveKeepsInv<T>(s: State<T>)
    requires Inv(s) && (s.producer.Copied? || s.producer.Entered? || s.producer.DecCopied?)
    ensures Safe(s, ProducerStep) && Inv(ProducerNext(s))
  {
    InvIsSafe(s, ProducerStep);
    SuccessorIs(s.q, if s.producer.Copied? then s.producer.inc else s.q.first);
  }

  lemma ProducerKeepsInv<T>(s: State<T>)
    requires Inv(s) && !s.producer.Out?
    ensures Safe(s, ProducerStep) && Inv(ProducerNext(s))
  {
    if s.producer.Advanced? {
      InsertKeepsInv(s);
    } else if s.producer.DecMoved? {
      EraseKeepsInv(s);
    } else if s.producer.Copied? || s.producer.Entered? || s.producer.DecCopied? {
      MoveKeepsInv(s);
    } else {
      InvIsSafe(s, ProducerStep);
    }
  }

  lemma ConsumerKeepsInv<T>(s: State<T>)
    requires Inv(s) && !s.consumer.Idle?
    ensures Safe(s, ConsumerStep) && Inv(ConsumerNext(s))
  {
    InvIsSafe(s, ConsumerStep);
    if s.consumer.IncCopied? { SuccessorIs(s.q, s.consumer.inc); }
  }

  lemma StepKeepsInv<T>(s: State<T>, step: Step<T>)
    requires Inv(s) && Enabled(s, step)
    ensures Safe(s, step) && Inv(Next(s, step))
  {
    InvIsSafe(s, step);
    if step.ProducerStep? { ProducerKeepsInv(s); }
    if step.ConsumerStep? { ConsumerKeepsInv(s); }
  }

  // ---- Runs

  ghost predicate Runs<T>(s: State<T>, steps: seq<Step<T>>)
    decreases |steps|
  {
    steps == [] || (Enabled(s, steps[0]) && Safe(s, steps[0]) && Runs(Next(s, steps[0]), steps[1..]))
  }

  /** Steps that are enabled when their turn comes; whether they are safe is what is to be shown. */
  ghost predicate Schedule<T>(s: State<T>, steps: seq<Step<T>>)
    decreases |steps|
  {
    steps == [] || (Enabled(s, steps[0]) && (Safe(s, steps[0]) ==> Schedule(Next(s, steps[0]), steps[1..])))
  }

  function After<T>(s: State<T>, steps: seq<Step<T>>): State<T>
    requires Runs(s, steps)
    decreases |steps|
  {
    if steps == [] then s else After(Next(s, steps[0]), steps[1..])
  }

  lemma {:induction false} RunsAreSafe<T>(s: State<T>, steps: seq<Step<T>>)
    requires Inv(s) && Schedule(s, steps)
    ensures Runs(s, steps) && Inv(After(s, steps))
    decreases |steps|
  {
    if steps != [] {
      StepKeepsInv(s, steps[0]);
      RunsAreSafe(Next(s, steps[0]), steps[1..]);
    }
  }

  /** The values between the divider and the last node, as the list holds them. */
  function Pending<T>(q: Queue<T>): seq<T>
    requires ListOk(q)
  {
    seq(q.last.node - q.divider.node,
        i requires 0 <= i < q.last.node - q.divider.node => q.value[q.divider.node + 1 + i])
  }

  /** The arguments of the calls of produce among the steps, in order. */
  function Arguments<T>(steps: seq<Step<T>>): seq<T> {
    if steps == [] then []
    else (if steps[0].Produce? then [steps[0].v] else []) + Arguments(steps[1..])
  }

  /** The argument of a call of produce that has not set theLast yet. */
  function InFlight<T>(p: Producer<T>): seq<T> {
    if p.Copied? || p.Advanced? || p.Inserted? then [p.v] else []
  }

  /** What has been given to produce so far. */
  function Given<T>(s: State<T>): seq<T> { s.produced + InFlight(s.producer) }

  lemma StepProduces<T>(s: State<T>, step: Step<T>)
    requires Inv(s) && Enabled(s, step) && Safe(s, step)
    ensures Given(Next(s, step)) == Given(s) + if step.Produce? then [step.v] else []
  {
  }

  /** What was given to produce are the arguments of its calls. */
  lemma {:induction false} RunProduces<T>(s: State<T>, steps: seq<Step<T>>)
    requires Inv(s) && Runs(s, steps)
    ensures Given(After(s, steps)) == Given(s) + Arguments(steps)
    decreases |steps|
  {
    if steps != [] {
      var step, n := steps[0], Next(s, steps[0]);
      StepKeepsInv(s, step);
      StepProduces(s, step);
      RunProduces(n, steps[1..]);
      Regroup(Given(s), if step.Produce? then [step.v] else [], Arguments(steps[1..]));
    }
  }

  /**
    * In every interleaving, the results of consume, then what is pending in the list, then the argument
    * of a call of produce that is under way, are the arguments given to produce, in order.
    */
  lemma FirstInFirstOut<T>(t: T, steps: seq<Step<T>>)
    requires Schedule(Initial(t), steps)
    ensures Runs(Initial(t), steps)
    ensures var s := After(Initial(t), steps);
      ListOk(s.q) && s.consumed + Pending(s.q) + InFlight(s.producer) == Arguments(steps)
  {
    InitialInv(t);
    RunsAreSafe(Initial(t), steps);
    RunProduces(Initial(t), steps);
    var s := After(Initial(t), steps);
    ConsumedAndPending(s);
  }

  lemma ConsumedAndPending<T>(s: State<T>)
    requires Inv(s)
    ensures s.consumed + Pending(s.q) == s.produced
  {
  }

  /** Trimming erases no node at the divider or after it. */
  lemma TrimmingIsSafe<T>(t: T, steps: seq<Step<T>>)
    requires Schedule(Initial(t), steps + [ProducerStep])
    ensures Runs(Initial(t), steps)
    ensures var s := After(Initial(t), steps);
      && Enabled(s, ProducerStep) && Safe(s, ProducerStep) && s.q.divider.At? && s.q.divider.node in s.q.list
      && var after := ProducerNext(s).q;
      && after.divider == s.q.divider && s.q.divider.node in after.list
      && s.q.list[IndexOf(s.q.list, s.q.divider.node)..] <= after.list[IndexOf(after.list, s.q.divider.node)..]
  {
    InitialInv(t);
    SplitSchedule(Initial(t), steps, ProducerStep);
    RunsAreSafe(Initial(t), steps);
    var s := After(Initial(t), steps);
    ProducerKeepsInv(s);
    DividerStays(s);
  }

  lemma DividerStays<T>(s: State<T>)
    requires Inv(s) && !s.producer.Out? && Safe(s, ProducerStep)
    ensures s.q.divider.node in s.q.list
    ensures var after := ProducerNext(s).q;
      && after.divider == s.q.divider && s.q.divider.node in after.list
      && s.q.list[IndexOf(s.q.list, s.q.divider.node)..] <= after.list[IndexOf(after.list, s.q.divider.node)..]
  {
    ProducerKeepsInv(s);
    var after := ProducerNext(s).q;
    ListStays(s);
    SuffixStays(s.q.list, s.q.next, after.list, after.next, s.q.divider.node);
  }

  lemma ListStays<T>(s: State<T>)
    requires Inv(s) && !s.producer.Out? && Safe(s, ProducerStep)
    ensures ProducerNext(s).q.divider == s.q.divider && ProducerNext(s).q.next >= s.q.next
  {
  }

  lemma SuffixStays(a: seq<nat>, end: nat, b: seq<nat>, end': nat, d: nat)
    requires Consecutive(a, end) && Consecutive(b, end') && end <= end' && a[0] <= d < end && b[0] <= d
    ensures d in a && d in b && a[IndexOf(a, d)..] <= b[IndexOf(b, d)..]
  {
    ConsecutiveIndex(a, end, d);
    ConsecutiveIndex(b, end', d);
    Ascending(a, end, d);
    Ascending(b, end', d);
    var x, y := a[d - a[0]..], b[d - b[0]..];
    assert x == y[..end - d];
  }

  lemma Ascending(a: seq<nat>, end: nat, d: nat)
    requires Consecutive(a, end) && a[0] <= d < end
    ensures var x := a[d - a[0]..]; |x| == end - d && forall i :: 0 <= i < |x| ==> x[i] == d + i
  {
    var x := a[d - a[0]..];
    forall i | 0 <= i < |x|
      ensures x[i] == d + i
    {
      assert x[i] == a[d - a[0] + i];
    }
  }

  lemma {:induction false} SplitSchedule<T>(s: State<T>, steps: seq<Step<T>>, last: Step<T>)
    requires Inv(s) && Schedule(s, steps + [last])
    ensures Schedule(s, steps) && Runs(s, steps) && Enabled(After(s, steps), last)
    decreases |steps|
  {
    if steps != [] {
      StepKeepsInv(s, steps[0]);
      assert (steps + [last])[0] == steps[0] && (steps + [last])[1..] == steps[1..] + [last];
      SplitSchedule(Next(s, steps[0]), steps[1..], last);
    } else {
      assert (steps + [last])[0] == last;
    }
  }

  /** consume finds nothing exactly if all arguments of produce, but one under way, were consumed. */
  lemma EmptyMeansAllConsumed<T>(t: T, steps: seq<Step<T>>)
    requires Schedule(Initial(t), steps)
    ensures Runs(Initial(t), steps)
    ensures var s := After(Initial(t), steps);
      s.consumer.Idle? ==> (Next(s, Consume) == s <==> s.consumed + InFlight(s.producer) == Arguments(steps))
  {
    InitialInv(t);
    FirstInFirstOut(t, steps);
    RunsAreSafe(Initial(t), steps);
    var s := After(Initial(t), steps);
    assert |s.consumed + Pending(s.q) + InFlight(s.producer)| == |s.consumed + InFlight(s.producer)| + |Pending(s.q)|;
    if Pending(s.q) == [] { assert s.consumed + Pending(s.q) == s.consumed; }
  }
}
