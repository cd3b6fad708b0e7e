/** Whole runs of array operations: what every run keeps, what it costs, and what it destroys. */
module ArrayRuns {
  import opened CMachine
  import opened Chunks
  import opened ArraySpec

  datatype Op =
    | DoPush(e: Elem)
    | DoPop
    | DoPushFront(e: Elem)
    | DoPopFront
    | DoInsert(p: nat, e: Elem)
    | DoInject(p: nat, es: seq<Elem>)
    | DoAppend(es: seq<Elem>)
    | DoConcat(es: seq<Elem>)
    | DoEvict(p: nat)
    | DoWipe(start: nat, end: nat)
    | DoClear
    | DoSwap(a: nat, b: nat)
    | DoSlim
    | DoClaim(es: seq<Elem>)
    | DoSettle
    | DoUnsettle

  /** One call and the allocator's answer to it. */
  datatype Call = Call(op: Op, alloc: bool)

  /** The elements an operation is asked to put in. */
  function Given(op: Op): (es: seq<Elem>) {
    match op
    case DoPush(e) => [e]
    case DoPushFront(e) => [e]
    case DoInsert(_, e) => [e]
    case DoInject(_, es) => es
    case DoAppend(es) => es
    case DoConcat(es) => es
    case DoClaim(es) => es
    case _ => []
  }

  /** How many elements an operation asks array_adjust to make room for. */
  function Requested(s: Arr, op: Op): nat {
    |Given(op)| + if op.DoConcat? then |s.elems| else 0
  }

  predicate Grows(op: Op) {
    op.DoPush? || op.DoPushFront? || op.DoInsert? || op.DoInject? || op.DoAppend? || op.DoConcat?
  }

  /** The guards of the source. */
  predicate Enabled(s: Arr, op: Op) {
    && AllSized(Given(op), s.eltSize)
    && (Grows(op) ==> AdjustGuards(s, Requested(s, op)))
    && match op
       case DoPop => s.elems != []
       case DoPopFront => s.elems != []
       case DoInsert(p, _) => p <= |s.elems|
       case DoInject(p, _) => p <= |s.elems|
       case DoEvict(p) => p < |s.elems|
       case DoWipe(start, end) => start <= end <= |s.elems|
       case DoSwap(a, b) => a < |s.elems| && b < |s.elems|
       case DoSlim => SlimGuard(s)
       case DoUnsettle => s.owner
       case _ => true
  }

  function Step(s: Arr, c: Call): Outcome
    requires Valid(s) && Enabled(s, c.op)
  {
    match c.op
    case DoPush(e) => Push(s, e, c.alloc)
    case DoPop => Outcome(Pop(s), true)
    case DoPushFront(e) => Insert(s, 0, e, c.alloc)
    case DoPopFront => Outcome(Evict(s, 0), true)
    case DoInsert(p, e) => Insert(s, p, e, c.alloc)
    case DoInject(p, es) => Inject(s, p, es, c.alloc)
    case DoAppend(es) => Append(s, es, c.alloc)
    case DoConcat(es) => Concat(s, es, c.alloc)
    case DoEvict(p) => Outcome(Evict(s, p), true)
    case DoWipe(start, end) => Outcome(Wipe(s, start, end), true)
    case DoClear => Outcome(Clear(s), true)
    case DoSwap(a, b) => Outcome(SwapElems(s, a, b), true)
    case DoSlim => Slim(s, c.alloc)
    case DoClaim(es) => Claim(s, es)
    case DoSettle => Outcome(Settle(s), true)
    case DoUnsettle => Outcome(Unsettle(s), true)
  }

  /** What no operation changes, and what a refused operation leaves alone. */
  predicate Kept(s: Arr, r: Outcome) {
    && Valid(r.st)
    && r.st.eltSize == s.eltSize && r.st.owner == s.owner && r.st.hasFree == s.hasFree
    && (!r.ok ==> r.st == s)
    && (s.settled && r.st.settled ==> r.st.cap == s.cap)
  }

  lemma AdjustedWith(s: Arr, n: nat, alloc: bool, elems: seq<Elem>)
    requires Valid(s) && AdjustGuards(s, n)
    requires AllSized(elems, s.eltSize) && |elems| <= |s.elems| + n
    ensures var r := Adjust(s, n, alloc);
            Kept(s, r) && (r.ok ==> Kept(s, Outcome(r.st.(elems := elems), true)))
  {
    hide Offset, SizeAlign;
    AdjustMakesRoom(s, n, alloc);
    OffsetMonotone(|elems|, |s.elems| + n, s.eltSize);
  }

  lemma FewerElements(s: Arr, gone: seq<Elem>, elems: seq<Elem>)
    requires Valid(s) && AllSized(elems, s.eltSize) && |elems| <= |s.elems|
    ensures Kept(s, Outcome(Destroy(s, gone).(elems := elems), true))
    ensures Kept(s, Outcome(s.(elems := elems), true))
  {
  }

  lemma {:induction false} ReverseAt<T>(s: seq<T>, k: nat)
    requires k < |s|
    ensures Reverse(s)[k] == s[|s| - 1 - k]
  {
    if k > 0 {
      ReverseAt(s[..|s| - 1], k - 1);
    }
  }

  /** Clearing destroys from the end: the k-th element destroyed is the k-th from the back. */
  lemma ClearDestroysBackwards(s: Arr, k: nat)
    requires s.hasFree && k < |s.elems|
    ensures var t := Clear(s);
            |t.freed| == |s.freed| + |s.elems| && t.freed[|s.freed| + k] == s.elems[|s.elems| - 1 - k]
  {
    ReverseAt(s.elems, k);
  }

  lemma ClaimKeeps(s: Arr, es: seq<Elem>)
    requires Valid(s) && AllSized(es, s.eltSize)
    ensures Kept(s, Claim(s, es))
  {
  }

  lemma GrowthKeeps(s: Arr, c: Call)
    requires Valid(s) && Enabled(s, c.op) && Grows(c.op)
    ensures Kept(s, Step(s, c))
  {
    hide Adjust, AdjustGuards, Offset, Kept;
    var n := |s.elems|;
    match c.op {
      case DoPush(e) => AdjustedWith(s, 1, c.alloc, s.elems + [e]);
      case DoPushFront(e) => AdjustedWith(s, 1, c.alloc, s.elems[..0] + [e] + s.elems[0..]);
      case DoInsert(p, e) => AdjustedWith(s, 1, c.alloc, s.elems[..p] + [e] + s.elems[p..]);
      case DoInject(p, es) => AdjustedWith(s, |es|, c.alloc, s.elems[..p] + es + s.elems[p..]);
      case DoAppend(es) => AdjustedWith(s, |es|, c.alloc, s.elems + es);
      case DoConcat(es) => AdjustedWith(s, n + |es|, c.alloc, s.elems + es);
    }
  }

  lemma RemovalKeeps(s: Arr, c: Call)
    requires Valid(s) && Enabled(s, c.op)
    requires c.op.DoPop? || c.op.DoPopFront? || c.op.DoEvict? || c.op.DoWipe? || c.op.DoClear?
    ensures Kept(s, Step(s, c))
  {
    hide Offset, Kept;
    var n := |s.elems|;
    match c.op {
      case DoPop => FewerElements(s, [s.elems[n - 1]], s.elems[..n - 1]);
      case DoPopFront => FewerElements(s, [s.elems[0]], s.elems[..0] + s.elems[1..]);
      case DoEvict(p) => FewerElements(s, [s.elems[p]], s.elems[..p] + s.elems[p + 1..]);
      case DoWipe(start, end) => FewerElements(s, s.elems[..end - start], s.elems[..start] + s.elems[end..]);
      case DoClear => FewerElements(s, Reverse(s.elems), []);
    }
  }

  lemma FlagsKeep(s: Arr, c: Call)
    requires Valid(s) && Enabled(s, c.op)
    requires c.op.DoSwap? || c.op.DoSlim? || c.op.DoSettle? || c.op.DoUnsettle?
    ensures Kept(s, Step(s, c))
  {
    hide Offset;
    if c.op.DoSwap? {
      FewerElements(s, [], SwapElems(s, c.op.a, c.op.b).elems);
    }
  }

  /** Every operation keeps the array well formed, and a refused one changes nothing at all. */
  lemma StepKeeps(s: Arr, c: Call)
    requires Valid(s) && Enabled(s, c.op)
    ensures Kept(s, Step(s, c))
  {
    hide Step, Kept;
    if Grows(c.op) {
      GrowthKeeps(s, c);
    } else if c.op.DoClaim? {
      ClaimIsStep(s, c);
    } else if c.op.DoSwap? || c.op.DoSlim? || c.op.DoSettle? || c.op.DoUnsettle? {
      FlagsKeep(s, c);
    } else {
      RemovalKeeps(s, c);
    }
  }

  lemma ClaimIsStep(s: Arr, c: Call)
    requires Valid(s) && Enabled(s, c.op) && c.op.DoClaim?
    ensures Kept(s, Step(s, c))
  {
    ClaimKeeps(s, c.op.es);
  }

  // ----- runs -----

  predicate Runnable(s: Arr, calls: seq<Call>)
    requires Valid(s)
    decreases calls
  {
    calls == [] ||
    (Enabled(s, calls[0].op) && (StepKeeps(s, calls[0]); Runnable(Step(s, calls[0]).st, calls[1..])))
  }

  function Run(s: Arr, calls: seq<Call>): (t: Arr)
    requires Valid(s) && Runnable(s, calls)
    ensures Valid(t)
    decreases calls
  {
    StepKeepsIf(s, calls);
    if calls == [] then s else Run(Step(s, calls[0]).st, calls[1..])
  }

  lemma StepKeepsIf(s: Arr, calls: seq<Call>)
    requires Valid(s) && Runnable(s, calls)
    ensures calls != [] ==> Kept(s, Step(s, calls[0]))
  {
    if calls != [] {
      StepKeeps(s, calls[0]);
    }
  }

  predicate Without(calls: seq<Call>, bad: Op -> bool) {
    forall i :: 0 <= i < |calls| ==> !bad(calls[i].op)
  }

  /** A borrowed buffer stays settled and keeps its size through every run: it is never reallocated. */
  lemma {:induction false} BorrowedStaysInPlace(s: Arr, calls: seq<Call>)
    requires Valid(s) && !s.owner && Runnable(s, calls)
    ensures var t := Run(s, calls); !t.owner && t.settled && t.cap == s.cap && t.copied == s.copied
    decreases calls
  {
    if calls != [] {
      StepKeeps(s, calls[0]);
      SettledStep(s, calls[0]);
      BorrowedStaysInPlace(Step(s, calls[0]).st, calls[1..]);
    }
  }

  lemma SettledStep(s: Arr, c: Call)
    requires Valid(s) && Enabled(s, c.op) && s.settled
    ensures Step(s, c).st.cap == s.cap && Step(s, c).st.copied == s.copied
    ensures Step(s, c).st.settled <==> !c.op.DoUnsettle?
  {
  }

  /** Between settle and unsettle nothing changes the capacity or grows the buffer. */
  lemma {:induction false} SettledStaysInPlace(s: Arr, calls: seq<Call>)
    requires Valid(s) && s.settled && Runnable(s, calls) && Without(calls, (op: Op) => op.DoUnsettle?)
    ensures var t := Run(s, calls); t.settled && t.cap == s.cap && t.copied == s.copied
    decreases calls
  {
    if calls != [] {
      StepKeeps(s, calls[0]);
      SettledStep(s, calls[0]);
      SettledStaysInPlace(Step(s, calls[0]).st, calls[1..]);
    }
  }

  // ----- amortised cost -----

  lemma StepCost(s: Arr, c: Call)
    requires Valid(s) && Enabled(s, c.op) && !c.op.DoSlim?
    ensures var t := Step(s, c).st;
            && t.copied - s.copied <= t.cap - s.cap
            && (t.cap != s.cap ==> 2 * s.cap <= t.cap)
            && s.cap <= t.cap
  {
    hide Offset, Adjust, AdjustGuards;
    if Grows(c.op) {
      AdjustMakesRoom(s, Requested(s, c.op), c.alloc);
    }
  }

  /** All the capacities ever copied add up to no more than what was gained. */
  lemma {:induction false} CopyingIsAmortised(s: Arr, calls: seq<Call>)
    requires Valid(s) && Runnable(s, calls) && Without(calls, (op: Op) => op.DoSlim?)
    ensures Run(s, calls).copied - s.copied <= Run(s, calls).cap - s.cap
    decreases calls
  {
    if calls != [] {
      StepKeeps(s, calls[0]);
      StepCost(s, calls[0]);
      CopyingIsAmortised(Step(s, calls[0]).st, calls[1..]);
    }
  }

  /** The largest number of elements held at any time during the run. */
  function Peak(s: Arr, calls: seq<Call>): (n: nat)
    requires Valid(s) && Runnable(s, calls)
    ensures |s.elems| <= n
    decreases calls
  {
    if calls == [] then |s.elems|
    else
      StepKeeps(s, calls[0]);
      var rest := Peak(Step(s, calls[0]).st, calls[1..]);
      if rest < |s.elems| then |s.elems| else rest
  }

  function Max(a: int, b: int): int {
    if a < b then b else a
  }

  /** What a run that never holds more than `bytes` bytes can end up reserving, starting from `cap`. */
  function CapBound(cap: nat, bytes: int, factor: int): int {
    Max(cap, Max(INITIAL_SIZE, factor * bytes + 7))
  }

  lemma ReserveCapacity(s: Arr, need: nat, alloc: bool)
    requires need <= SIZE_MAX && Alignable(s, need)
    ensures Reserve(s, need, alloc).st.cap <= CapBound(s.cap, need, 2)
  {
    hide SizeAlign;
    if need <= SIZE_MAX - 7 {
      GrownCapCovers(s.cap, need);
    }
  }

  lemma StepCapacity(s: Arr, c: Call, factor: int)
    requires Valid(s) && Enabled(s, c.op)
    requires if c.op.DoConcat? then factor == 4 else factor == 2 || factor == 4
    ensures var t := Step(s, c).st;
            t.cap <= CapBound(s.cap, Offset(Max(|s.elems|, |t.elems|), s.eltSize), factor)
  {
    hide Offset, Reserve;
    var t := Step(s, c).st;
    if Grows(c.op) && t.cap > s.cap {
      var need := Offset(|s.elems| + Requested(s, c.op), s.eltSize);
      ReserveCapacity(s, need, c.alloc);
      assert |t.elems| == |s.elems| + |Given(c.op)| by { GrowthAdds(s, c); }
      if c.op.DoConcat? {
        OffsetSum(|s.elems|, |t.elems|, s.eltSize);
        OffsetMonotone(|s.elems|, |t.elems|, s.eltSize);
      }
    }
  }

  lemma GrowthAdds(s: Arr, c: Call)
    requires Valid(s) && Enabled(s, c.op) && Grows(c.op)
    ensures var t := Step(s, c).st; t.cap != s.cap ==> |t.elems| == |s.elems| + |Given(c.op)|
    ensures Step(s, c).st.cap == Adjust(s, Requested(s, c.op), c.alloc).st.cap
  {
    hide Offset, SizeAlign;
  }

  /** The capacity is linear in the most bytes ever held; concatenating costs another factor of two. */
  lemma {:induction false} CapacityIsLinear(s: Arr, calls: seq<Call>, factor: int)
    requires Valid(s) && Runnable(s, calls)
    requires factor == 4 || (factor == 2 && Without(calls, (op: Op) => op.DoConcat?))
    ensures Run(s, calls).cap <= CapBound(s.cap, Offset(Peak(s, calls), s.eltSize), factor)
    decreases calls
  {
    hide Offset, Step, Enabled, SizeAlign;
    if calls != [] {
      var t := Step(s, calls[0]).st;
      StepKeeps(s, calls[0]);
      StepCapacity(s, calls[0], factor);
      CapacityIsLinear(t, calls[1..], factor);
      OffsetMonotone(Max(|s.elems|, |t.elems|), Peak(s, calls), s.eltSize);
      OffsetMonotone(Peak(t, calls[1..]), Peak(s, calls), s.eltSize);
    }
  }

  /** Total copying of a run from an empty array is linear in the most bytes ever held. */
  lemma TotalCopyingIsLinear(s: Arr, calls: seq<Call>)
    requires Valid(s) && Runnable(s, calls) && s.copied == 0 && Without(calls, (op: Op) => op.DoSlim?)
    ensures Run(s, calls).copied <= CapBound(s.cap, Offset(Peak(s, calls), s.eltSize), 4) - s.cap
    ensures Without(calls, (op: Op) => op.DoConcat?) ==>
              Run(s, calls).copied <= CapBound(s.cap, Offset(Peak(s, calls), s.eltSize), 2) - s.cap
  {
    CopyingIsAmortised(s, calls);
    CapacityIsLinear(s, calls, 4);
    if Without(calls, (op: Op) => op.DoConcat?) {
      CapacityIsLinear(s, calls, 2);
    }
  }

  // ----- what is destroyed -----

  function Bag(es: seq<Elem>): multiset<Elem> {
    multiset(es)
  }

  /** Everything put into the array by the calls that succeeded. */
  function PutIn(s: Arr, calls: seq<Call>): multiset<Elem>
    requires Valid(s) && Runnable(s, calls)
    decreases calls
  {
    if calls == [] then multiset{}
    else
      StepKeeps(s, calls[0]);
      var r := Step(s, calls[0]);
      (if r.ok then Bag(Given(calls[0].op)) else multiset{}) + PutIn(r.st, calls[1..])
  }

  /** What an operation takes out without destroying it: all that a wipe removes, or an element swapped with itself. */
  function Missed(s: Arr, op: Op): multiset<Elem>
    requires Valid(s) && Enabled(s, op)
  {
    if op.DoWipe? then Bag(s.elems[op.start..op.end])
    else if op.DoSwap? && op.a == op.b then Bag([s.elems[op.a]])
    else multiset{}
  }

  /** What it destroys or puts in instead: as many elements from the front, or zeros. */
  function Instead(s: Arr, op: Op): multiset<Elem>
    requires Valid(s) && Enabled(s, op)
  {
    if op.DoWipe? then Bag(s.elems[..op.end - op.start])
    else if op.DoSwap? && op.a == op.b then Bag([Zeros(s.eltSize)])
    else multiset{}
  }

  predicate Loses(s: Arr, op: Op)
    requires Valid(s) && Enabled(s, op)
  {
    Missed(s, op) != Instead(s, op)
  }

  /** The same over a run. */
  function AllMissed(s: Arr, calls: seq<Call>): multiset<Elem>
    requires Valid(s) && Runnable(s, calls)
    decreases calls
  {
    StepKeepsIf(s, calls);
    if calls == [] then multiset{} else Missed(s, calls[0].op) + AllMissed(Step(s, calls[0]).st, calls[1..])
  }

  function AllInstead(s: Arr, calls: seq<Call>): multiset<Elem>
    requires Valid(s) && Runnable(s, calls)
    decreases calls
  {
    StepKeepsIf(s, calls);
    if calls == [] then multiset{} else Instead(s, calls[0].op) + AllInstead(Step(s, calls[0]).st, calls[1..])
  }

  /** What can be told from the call alone. */
  predicate Careless(op: Op) {
    (op.DoWipe? && !(op.start == 0 || op.start == op.end)) || (op.DoSwap? && op.a == op.b)
  }

  lemma {:induction false} CarefulCallsLoseNothing(s: Arr, calls: seq<Call>)
    requires Valid(s) && Runnable(s, calls) && Without(calls, Careless)
    ensures AllMissed(s, calls) == AllInstead(s, calls)
    decreases calls
  {
    hide Missed, Instead, Step, Enabled;
    if calls != [] {
      StepKeeps(s, calls[0]);
      CarefulLosesNothing(s, calls[0].op);
      CarefulCallsLoseNothing(Step(s, calls[0]).st, calls[1..]);
    }
  }

  lemma CarefulLosesNothing(s: Arr, op: Op)
    requires Valid(s) && Enabled(s, op) && !Careless(op)
    ensures !Loses(s, op)
  {
    if op.DoWipe? {
      assert s.elems[..op.end - op.start] == s.elems[op.start..op.end];
    }
  }

  lemma BagSplit(s: seq<Elem>, p: nat, q: nat)
    requires p <= q <= |s|
    ensures Bag(s) == Bag(s[..p]) + Bag(s[p..q]) + Bag(s[q..])
  {
    assert s == s[..p] + s[p..q] + s[q..];
  }

  lemma {:induction false} BagReverse(s: seq<Elem>)
    ensures Bag(Reverse(s)) == Bag(s)
  {
    if s != [] {
      BagReverse(s[..|s| - 1]);
      assert s == s[..|s| - 1] + [s[|s| - 1]];
    }
  }

  lemma BagSwap(s: seq<Elem>, a: nat, b: nat)
    requires a < |s| && b < |s|
    ensures Bag(s[a := s[b]][b := s[a]]) == Bag(s)
  {
  }

  lemma Removed(s: Arr, p: nat, q: nat)
    requires s.hasFree && p <= q <= |s.elems|
    ensures var t := Destroy(s, s.elems[p..q]).(elems := s.elems[..p] + s.elems[q..]);
            Bag(t.elems) + Bag(t.freed) == Bag(s.elems) + Bag(s.freed)
  {
    BagSplit(s.elems, p, q);
  }

  lemma Added(s: Arr, p: nat, es: seq<Elem>)
    requires p <= |s.elems|
    ensures Bag(s.elems[..p] + es + s.elems[p..]) == Bag(s.elems) + Bag(es)
  {
    assert s.elems == s.elems[..p] + s.elems[p..];
  }

  lemma GrowthConserves(s: Arr, c: Call)
    requires Valid(s) && Enabled(s, c.op) && Grows(c.op)
    ensures var r := Step(s, c);
            r.st.freed == s.freed
            && Bag(r.st.elems) == Bag(s.elems) + if r.ok then Bag(Given(c.op)) else multiset{}
  {
    hide Adjust, AdjustGuards, Offset, Bag;
    AdjustMakesRoom(s, Requested(s, c.op), c.alloc);
    match c.op {
      case DoPush(e) => AddedLast(s, [e]);
      case DoPushFront(e) => Added(s, 0, [e]);
      case DoInsert(p, e) => Added(s, p, [e]);
      case DoInject(p, es) => Added(s, p, es);
      case DoAppend(es) => AddedLast(s, es);
      case DoConcat(es) => AddedLast(s, es);
    }
  }

  lemma RemovalBalances(s: Arr, c: Call)
    requires Valid(s) && Enabled(s, c.op) && !Grows(c.op) && !c.op.DoClaim? && s.hasFree
    ensures var t := Step(s, c).st;
            Bag(t.elems) + Bag(t.freed) + Missed(s, c.op) == Bag(s.elems) + Bag(s.freed) + Instead(s, c.op)
  {
    hide Offset, Bag;
    var n := |s.elems|;
    match c.op {
      case DoPop =>
        Removed(s, n - 1, n);
        assert s.elems[n - 1..n] == [s.elems[n - 1]] && s.elems[..n - 1] + s.elems[n..] == s.elems[..n - 1];
      case DoPopFront => EvictConserves(s, 0);
      case DoEvict(p) => EvictConserves(s, p);
      case DoWipe(start, end) => WipeBalances(s, start, end);
      case DoClear => ClearConserves(s);
      case DoSwap(a, b) => SwapBalances(s, a, b);
      case DoSlim =>
      case DoSettle =>
      case DoUnsettle =>
    }
  }

  /** What one operation takes in and what it leaves, everything counted. */
  lemma StepBalances(s: Arr, c: Call)
    requires Valid(s) && Enabled(s, c.op) && s.hasFree
    ensures var r := Step(s, c);
            var given := if r.ok then Bag(Given(c.op)) else multiset{};
            Bag(r.st.elems) + Bag(r.st.freed) + Missed(s, c.op)
            == Bag(s.elems) + Bag(s.freed) + given + Instead(s, c.op)
  {
    hide Adjust, AdjustGuards, Offset, Bag;
    BagOfNothing();
    if Grows(c.op) {
      GrowthConserves(s, c);
    } else if c.op.DoClaim? {
      AddedLast(s, c.op.es);
    } else {
      RemovalBalances(s, c);
    }
  }

  /** Exactly when one operation conserves the elements. */
  lemma StepConservesWhen(s: Arr, c: Call)
    requires Valid(s) && Enabled(s, c.op) && s.hasFree
    ensures var r := Step(s, c);
            Bag(r.st.elems) + Bag(r.st.freed)
            == Bag(s.elems) + Bag(s.freed) + (if r.ok then Bag(Given(c.op)) else multiset{})
            <==> !Loses(s, c.op)
  {
    hide Step, Bag, Missed, Instead;
    StepBalances(s, c);
    var r := Step(s, c);
    var given := if r.ok then Bag(Given(c.op)) else multiset{};
    Balanced(Bag(r.st.elems) + Bag(r.st.freed), Missed(s, c.op), Bag(s.elems) + Bag(s.freed) + given, Instead(s, c.op));
  }

  lemma Balanced(a: multiset<Elem>, b: multiset<Elem>, c: multiset<Elem>, d: multiset<Elem>)
    requires a + b == c + d
    ensures a == c <==> b == d
  {
    if a == c {
      Cancel(a, b, d);
    } else if b == d {
      assert b + a == a + b && b + c == c + d;
      Cancel(b, a, c);
    }
  }

  lemma EvictConserves(s: Arr, p: nat)
    requires s.hasFree && p < |s.elems|
    ensures Bag(Evict(s, p).elems) + Bag(Evict(s, p).freed) == Bag(s.elems) + Bag(s.freed)
  {
    Removed(s, p, p + 1);
    assert s.elems[p..p + 1] == [s.elems[p]];
  }

  lemma BagOfNothing()
    ensures Bag([]) == multiset{}
  {
  }

  lemma AddedLast(s: Arr, es: seq<Elem>)
    ensures Bag(s.elems + es) == Bag(s.elems) + Bag(es)
  {
  }

  lemma WipeBalances(s: Arr, start: nat, end: nat)
    requires s.hasFree && start <= end <= |s.elems|
    ensures var t := Wipe(s, start, end);
            Bag(t.elems) + Bag(t.freed) + Bag(s.elems[start..end])
            == Bag(s.elems) + Bag(s.freed) + Bag(s.elems[..end - start])
  {
    hide Bag;
    BagSplit(s.elems, start, end);
    BagSum(s.elems[..start], s.elems[end..]);
    BagSum(s.freed, s.elems[..end - start]);
    var front, back, freed := Bag(s.elems[..start]), Bag(s.elems[end..]), Bag(s.freed);
    var gone, killed := Bag(s.elems[start..end]), Bag(s.elems[..end - start]);
    assert front + back + (freed + killed) + gone == front + gone + back + freed + killed;
  }

  lemma BagSum(a: seq<Elem>, b: seq<Elem>)
    ensures Bag(a + b) == Bag(a) + Bag(b)
  {
  }

  lemma Cancel(a: multiset<Elem>, b: multiset<Elem>, c: multiset<Elem>)
    ensures a + b == a + c <==> b == c
  {
    if a + b == a + c {
      forall e
        ensures b[e] == c[e]
      {
        assert (a + b)[e] == (a + c)[e];
      }
    }
  }

  lemma SwapBalances(s: Arr, a: nat, b: nat)
    requires Valid(s) && a < |s.elems| && b < |s.elems|
    ensures var t := SwapElems(s, a, b);
            if a != b then Bag(t.elems) == Bag(s.elems)
            else
              Bag(t.elems) + Bag(s.freed) + Bag([s.elems[a]]) == Bag(s.elems) + Bag(s.freed) + Bag([Zeros(s.eltSize)])
  {
    hide Bag, Zeros, Valid;
    if a != b {
      BagSwap(s.elems, a, b);
    } else {
      BagUpdate(s.elems, a, Zeros(s.eltSize));
      var now, was, freed := Bag(SwapElems(s, a, b).elems), Bag(s.elems), Bag(s.freed);
      var gone, zeros := Bag([s.elems[a]]), Bag([Zeros(s.eltSize)]);
      assert now + freed + gone == now + gone + freed;
      assert was + freed + zeros == was + zeros + freed;
    }
  }

  lemma BagUpdate(s: seq<Elem>, a: nat, e: Elem)
    requires a < |s|
    ensures Bag(s[a := e]) + Bag([s[a]]) == Bag(s) + Bag([e])
  {
    assert s == s[..a] + [s[a]] + s[a + 1..];
    assert s[a := e] == s[..a] + [e] + s[a + 1..];
  }

  lemma ClearConserves(s: Arr)
    requires s.hasFree
    ensures Bag(Clear(s).elems) + Bag(Clear(s).freed) == Bag(s.elems) + Bag(s.freed)
  {
    BagReverse(s.elems);
  }

  /** The account of a whole run: what is live and destroyed, and what was missed, is all that ever came in. */
  lemma {:induction false} RunBalances(s: Arr, calls: seq<Call>)
    requires Valid(s) && Runnable(s, calls) && s.hasFree
    ensures var t := Run(s, calls);
            Bag(t.elems) + Bag(t.freed) + AllMissed(s, calls)
            == Bag(s.elems) + Bag(s.freed) + PutIn(s, calls) + AllInstead(s, calls)
    decreases calls
  {
    hide Bag, Step, Enabled, Missed, Instead;
    if calls != [] {
      StepKeeps(s, calls[0]);
      StepBalances(s, calls[0]);
      var r := Step(s, calls[0]);
      RunBalances(r.st, calls[1..]);
      var t, given := Run(s, calls), if r.ok then Bag(Given(calls[0].op)) else multiset{};
      AddAccounts(Bag(s.elems) + Bag(s.freed), given, Instead(s, calls[0].op), Missed(s, calls[0].op),
                  Bag(r.st.elems) + Bag(r.st.freed), PutIn(r.st, calls[1..]), AllInstead(r.st, calls[1..]),
                  AllMissed(r.st, calls[1..]), Bag(t.elems) + Bag(t.freed));
    }
  }

  lemma AddAccounts(a: multiset<Elem>, x: multiset<Elem>, y: multiset<Elem>, z: multiset<Elem>, b: multiset<Elem>,
                    u: multiset<Elem>, v: multiset<Elem>, w: multiset<Elem>, c: multiset<Elem>)
    requires b + z == a + x + y && c + w == b + u + v
    ensures c + (z + w) == a + (x + u) + (y + v)
  {
    assert c + (z + w) == (c + w) + z == (b + z) + u + v;
  }

  /** Live plus destroyed is what was there plus what was put in, exactly when all that was missed is made up for. */
  lemma ElementsAreConservedWhen(s: Arr, calls: seq<Call>)
    requires Valid(s) && Runnable(s, calls) && s.hasFree
    ensures var t := Run(s, calls);
            Bag(t.elems) + Bag(t.freed) == Bag(s.elems) + Bag(s.freed) + PutIn(s, calls)
            <==> AllMissed(s, calls) == AllInstead(s, calls)
  {
    hide Bag, PutIn, AllMissed, AllInstead, Run, Runnable;
    RunBalances(s, calls);
    var t := Run(s, calls);
    Balanced(Bag(t.elems) + Bag(t.freed), AllMissed(s, calls), Bag(s.elems) + Bag(s.freed) + PutIn(s, calls),
             AllInstead(s, calls));
  }

  /** Exactly when a run from an empty array that ends by killing it destroys what was put in, each element once. */
  lemma KilledArrayDestroysEverythingWhen(s: Arr, calls: seq<Call>)
    requires Valid(s) && Runnable(s, calls) && s.hasFree && s.elems == [] && s.freed == []
    ensures Bag(Clear(Run(s, calls)).freed) == PutIn(s, calls) <==> AllMissed(s, calls) == AllInstead(s, calls)
  {
    hide Bag, PutIn, Runnable, Step, AllMissed, AllInstead;
    ElementsAreConservedWhen(s, calls);
    RunKeepsDestructor(s, calls);
    var t := Run(s, calls);
    ClearConserves(t);
    BagOfNothing();
    var given := PutIn(s, calls);
    assert multiset{} + multiset{} + given == given;
    assert multiset{} + Bag(Clear(t).freed) == Bag(Clear(t).freed);
  }

  lemma {:induction false} RunKeepsDestructor(s: Arr, calls: seq<Call>)
    requires Valid(s) && Runnable(s, calls)
    ensures Run(s, calls).hasFree == s.hasFree && Run(s, calls).eltSize == s.eltSize && Run(s, calls).owner == s.owner
    decreases calls
  {
    if calls != [] {
      StepKeeps(s, calls[0]);
      RunKeepsDestructor(Step(s, calls[0]).st, calls[1..]);
    }
  }

  /** Without a destructor nothing is ever destroyed. */
  lemma {:induction false} NothingDestroyedWithoutDestructor(s: Arr, calls: seq<Call>)
    requires Valid(s) && Runnable(s, calls) && !s.hasFree
    ensures Run(s, calls).freed == s.freed
    decreases calls
  {
    if calls != [] {
      StepKeeps(s, calls[0]);
      NothingDestroyedWithoutDestructor(Step(s, calls[0]).st, calls[1..]);
    }
  }

  /** Exactly which wipes destroy what they remove, whatever the array holds. */
  lemma WipeDestroysWhatItRemoves(start: nat, end: nat, size: nat)
    requires start <= end <= size
    ensures (forall es: seq<Elem> :: |es| == size ==> Bag(es[..end - start]) == Bag(es[start..end]))
            <==> (start == 0 || start == end)
  {
    if start == 0 || start == end {
      forall es: seq<Elem> | |es| == size
        ensures Bag(es[..end - start]) == Bag(es[start..end])
      {
        assert es[..end - start] == es[start..end];
      }
    } else {
      var es := seq(size, i => if i < start then [0 as byte] else [1 as byte]);
      assert |es| == size;
      assert es[..end - start][0] == [0 as byte];
      assert [0 as byte] in Bag(es[..end - start]);
      assert forall e :: e in es[start..end] ==> e == [1 as byte];
      assert [0 as byte] !in Bag(es[start..end]);
    }
  }

  /** The guards of array_wipe on its arguments. */
  predicate WipeGuard(size: nat, start: nat, end: nat) {
    start <= end && end - start <= size
  }

  /** How many bytes array_wipe moves, and from which offset, in 64-bit arithmetic. */
  function WipedLength(size: nat, start: nat, end: nat, e: nat): nat
    requires WipeGuard(size, start, end)
  {
    Wrap(Wrap(Wrap(size - start) - (end - start)) * e)
  }

  function WipedFrom(end: nat, e: nat): nat {
    Wrap(Offset(end, e))
  }

  lemma WipedLengthIs(size: nat, start: nat, end: nat, e: nat)
    requires WipeGuard(size, start, end)
    ensures WipedLength(size, start, end, e) == Wrap(Offset(size, e) - Offset(end, e))
  {
    WrapEarly(size - start, end - start, e);
    WrapEarly(size - end, 0, e);
    assert (size - end) * e == Offset(size, e) - Offset(end, e);
  }

  /**
   * The guard of array_wipe lets an `end` past the size through. The move then reads and writes live bytes only exactly
   * when the offset of `end` wraps back into them, with room for what is removed in front of it; where that offset does
   * not wrap, exactly when `end` is within the size after all.
   */
  lemma WipeMovesLiveBytesWhen(size: nat, start: nat, end: nat, e: nat)
    requires WipeGuard(size, start, end) && Offset(size, e) <= OBJECT_MAX && e > 0
    ensures var from, to := WipedFrom(end, e), WipedFrom(start, e);
            var len, live := WipedLength(size, start, end, e), Offset(size, e);
            && (from + len <= live <==> from <= live)
            && (from + len <= live && to + len <= live <==> Offset(end - start, e) <= from <= live)
            && (Offset(end, e) <= SIZE_MAX ==> (from + len <= live && to + len <= live <==> end <= size))
            && (end <= size ==> len == Offset(size - end, e))
  {
    WipedLengthIs(size, start, end, e);
    hide Offset;
    var live, at, gone := Offset(size, e), Offset(end, e), Offset(end - start, e);
    WrappedDifference(live, at);
    OffsetSum(start, end - start, e);
    OffsetMonotone(end - start, size, e);
    WrapEarly(at, gone, 1);
    WrapShift(Wrap(at) - gone, 1);
    if end <= size {
      OffsetSum(end, size - end, e);
    } else {
      OffsetMonotone(size + 1, end, e);
      OffsetSum(size, 1, e);
      OffsetUnit(e);
    }
  }

  lemma WrappedDifference(live: nat, at: nat)
    requires live <= OBJECT_MAX
    ensures Wrap(live - at) == if Wrap(at) <= live then live - Wrap(at) else live + SIZE_RANGE - Wrap(at)
  {
    var q := at / SIZE_RANGE;
    assert live - at == live - Wrap(at) + SIZE_RANGE * (0 - q);
    WrapShift(live - Wrap(at), 0 - q);
    WrapShift(live - Wrap(at), 1);
  }

  /** One element of eight bytes, wiped from 1 to 2: the guard agrees, and nearly the whole address space moves. */
  lemma WipePastTheEnd()
    ensures WipeGuard(1, 1, 2) && WipedFrom(2, 8) == 16 && WipedLength(1, 1, 2, 8) == SIZE_MAX - 7
  {
    WipedLengthIs(1, 1, 2, 8);
  }

  /** When the product wraps to zero nothing moves, though the array still loses an element. */
  lemma WipeFarPastTheEnd()
    ensures var far := 0x2000_0000_0000_0000;
            WipeGuard(1, far, far + 1) && WipedLength(1, far, far + 1, 8) == 0 && WipedFrom(far + 1, 8) == 8
  {
    WipedLengthIs(1, 0x2000_0000_0000_0000, 0x2000_0000_0000_0001, 8);
  }

  /** An offset that wraps back too far: live bytes are read, and written to the eight bytes before the buffer. */
  lemma WipeBeforeTheStart()
    ensures var far := 0x2000_0000_0000_0000;
            && WipeGuard(2, far - 1, far + 1) && WipedLength(2, far - 1, far + 1, 8) == 8
            && WipedFrom(far + 1, 8) == 8 && WipedFrom(far - 1, 8) == SIZE_MAX - 7
  {
    WipedLengthIs(2, 0x1FFF_FFFF_FFFF_FFFF, 0x2000_0000_0000_0001, 8);
  }

  /** Exclusive-or exchange swaps exactly when the positions differ or the element is all zeros already. */
  lemma SwapIsExchangeWhen(s: Arr, a: nat, b: nat)
    requires Valid(s) && a < |s.elems| && b < |s.elems|
    ensures SwapElems(s, a, b).elems == s.elems[a := s.elems[b]][b := s.elems[a]]
            <==> (a != b || s.elems[a] == Zeros(s.eltSize))
  {
    if a == b {
      assert SwapElems(s, a, b).elems[a] == Zeros(s.eltSize);
      assert s.elems[a := s.elems[b]][b := s.elems[a]][a] == s.elems[a];
    }
  }

  // ----- operations that undo each other, and operations that agree -----

  /** The elements are back; destroyed are the first ones of the array, which are the injected ones if they agree. */
  lemma InjectThenWipe(s: Arr, p: nat, es: seq<Elem>, alloc: bool)
    requires p <= |s.elems| && Inject(s, p, es, alloc).ok
    ensures var t, first := Wipe(Inject(s, p, es, alloc).st, p, p + |es|), (s.elems[..p] + es)[..|es|];
            && t.elems == s.elems
            && (s.hasFree ==> t.freed == s.freed + first)
            && (s.hasFree ==> (t.freed == s.freed + es <==> first == es))
            && (p == 0 || es == [] ==> first == es)
  {
    var all := s.elems[..p] + es + s.elems[p..];
    assert all[..|es|] == (s.elems[..p] + es)[..|es|];
    assert all[..p] + all[p + |es|..] == s.elems;
    var t := Wipe(Inject(s, p, es, alloc).st, p, p + |es|);
    assert s.hasFree && t.freed == s.freed + es ==> t.freed[|s.freed|..] == es;
  }

  lemma InsertThenEvict(s: Arr, p: nat, e: Elem, alloc: bool)
    requires p <= |s.elems| && Insert(s, p, e, alloc).ok
    ensures Evict(Insert(s, p, e, alloc).st, p).elems == s.elems
    ensures s.hasFree ==> Evict(Insert(s, p, e, alloc).st, p).freed == s.freed + [e]
  {
  }

  lemma PushThenPop(s: Arr, e: Elem, alloc: bool)
    requires Push(s, e, alloc).ok
    ensures Pop(Push(s, e, alloc).st).elems == s.elems
    ensures s.hasFree ==> Pop(Push(s, e, alloc).st).freed == s.freed + [e]
  {
  }

  lemma OneIsMany(s: Arr, p: nat, e: Elem, alloc: bool)
    requires p <= |s.elems|
    ensures Insert(s, p, e, alloc) == Inject(s, p, [e], alloc)
    ensures Push(s, e, alloc) == Append(s, [e], alloc) == Insert(s, |s.elems|, e, alloc)
  {
  }

  lemma SwapTwice(s: Arr, a: nat, b: nat)
    requires Valid(s) && a < |s.elems| && b < |s.elems| && a != b
    ensures SwapElems(SwapElems(s, a, b), a, b) == s
  {
  }

  /** Every documented position is admitted but one: `-size`, which stands for the first element. */
  lemma PullRejectsMinusSize(size: nat, i: int)
    ensures Pullable(size, i) <==> -(size as int) < i < size
    ensures var at := if i < 0 then i + size else i;
            0 <= at < size && !Pullable(size, i) <==> size > 0 && i == -(size as int)
  {
  }

  /** Element `k` of a pull is the one `k` steps from the start towards the end. */
  lemma PullWalks(elems: seq<Elem>, start: int, end: int, k: nat)
    requires Pullable(|elems|, start) && Pullable(|elems|, end)
    ensures var s, t := if start < 0 then start + |elems| else start, if end < 0 then end + |elems| else end;
            var r := PullElems(elems, start, end);
            && |r| == (if s < t then t - s else s - t) + 1
            && (k < |r| ==> r[k] == elems[if s < t then s + k else s - k])
  {
  }

  /** Pulling a whole array backwards twice gives it back. */
  lemma PullBackwardsTwice(elems: seq<Elem>)
    requires elems != []
    ensures var n := |elems|;
            var once := PullElems(elems, n - 1, 0);
            |once| == n && PullElems(once, n - 1, 0) == elems
  {
  }
}
