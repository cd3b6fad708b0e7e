/** The dynamic array as a plain sequence of elements: what every operation means. */
module ArraySpec {
  import opened CMachine
  import opened Chunks

  const INITIAL_SIZE: nat := 64 // ARRAY_INITIAL_SIZE

  datatype Arr = Arr(
    elems: seq<Elem>,   // the live elements
    eltSize: nat,
    cap: nat,           // reserved bytes
    owner: bool,
    settled: bool,
    hasFree: bool,      // a destructor is installed
    freed: seq<Elem>,   // every element the destructor was run on, in order
    copied: nat)        // sum of the capacities of all buffers given up by growth

  datatype Outcome = Outcome(st: Arr, ok: bool)

  predicate Valid(s: Arr) {
    && 0 < s.eltSize <= SIZE_MAX
    && AllSized(s.elems, s.eltSize)
    && Offset(|s.elems|, s.eltSize) <= s.cap <= OBJECT_MAX
    && (!s.owner ==> s.settled)
  }

  lemma SizeFits(s: Arr)
    requires Valid(s)
    ensures |s.elems| <= Offset(|s.elems|, s.eltSize) <= SIZE_MAX
  {
  }

  lemma FilterFits(s: Arr)
    requires Valid(s)
    ensures AllSized(s.elems, s.eltSize) && 0 < s.eltSize <= SIZE_MAX
    ensures |s.elems| <= SIZE_MAX && Offset(|s.elems|, s.eltSize) <= SIZE_MAX - 7
  {
  }

  lemma ElementsFit(s: Arr)
    requires Valid(s)
    ensures 0 < s.eltSize <= SIZE_MAX && Offset(|s.elems|, s.eltSize) <= s.cap <= OBJECT_MAX
  {
  }

  // ----- growth -----

  /** The guards array_adjust checks before it computes anything. */
  predicate CheckedByAdjust(s: Arr, n: nat)
    requires n <= SIZE_MAX
  {
    SafeToMul(s.cap, 2) && SafeToAdd(|s.elems|, n) && SafeToMul(|s.elems| + n, s.eltSize)
  }

  /** The request can be aligned, or is refused before it is. */
  predicate Alignable(s: Arr, need: nat) {
    need <= SIZE_MAX - 7 || s.settled || 2 * s.cap > INT_MAX
  }

  /** The request is a `size_t`, and so is its alignment, should it be needed. */
  predicate AdjustGuards(s: Arr, n: nat) {
    && |s.elems| + n <= SIZE_MAX
    && Offset(|s.elems| + n, s.eltSize) <= SIZE_MAX
    && Alignable(s, Offset(|s.elems| + n, s.eltSize))
  }

  /**
   * The division-based guards accept exactly the requests that do not wrap; only the last seven of those may be
   * impossible to align.
   */
  lemma GuardsAreExact(s: Arr, n: nat)
    requires Valid(s) && n <= SIZE_MAX
    ensures CheckedByAdjust(s, n) <==> |s.elems| + n <= SIZE_MAX && Offset(|s.elems| + n, s.eltSize) <= SIZE_MAX
    ensures AdjustGuards(s, n) ==> CheckedByAdjust(s, n)
    ensures CheckedByAdjust(s, n) && !AdjustGuards(s, n) ==> SizeAlign(Offset(|s.elems| + n, s.eltSize)) == 0
  {
    SafeToMulIsExact(s.cap, 2);
    SafeToMulIsExact(|s.elems| + n, s.eltSize);
    if CheckedByAdjust(s, n) {
      SizeAlignRoundsUp(Offset(|s.elems| + n, s.eltSize));
    }
  }

  function Doubled(cap: nat): nat {
    if 2 * cap < INITIAL_SIZE then INITIAL_SIZE else 2 * cap
  }

  function GrownCap(cap: nat, need: int): nat {
    if need > Doubled(cap) then SizeAlign(need) else Doubled(cap)
  }

  /** Getting at least `need` bytes; `alloc` is the allocator's answer, should it be asked. */
  function Reserve(s: Arr, need: int, alloc: bool): Outcome {
    if need < s.cap then Outcome(s, true)
    else if s.settled then Outcome(s, false)
    else if 2 * s.cap >= INITIAL_SIZE && 2 * s.cap > INT_MAX then Outcome(s, false)
    else if !alloc || GrownCap(s.cap, need) > OBJECT_MAX then Outcome(s, false)
    else Outcome(s.(cap := GrownCap(s.cap, need), copied := s.copied + s.cap), true)
  }

  /** Making room for `n` more elements. */
  function Adjust(s: Arr, n: nat, alloc: bool): Outcome {
    Reserve(s, Offset(|s.elems| + n, s.eltSize), alloc)
  }

  lemma GrownCapCovers(cap: nat, need: int)
    requires need <= SIZE_MAX - 7
    ensures need <= GrownCap(cap, need) && 2 * cap <= GrownCap(cap, need)
    ensures GrownCap(cap, need) <= need + 7 || GrownCap(cap, need) == Doubled(cap)
  {
    if need > 0 {
      SizeAlignRoundsUp(need);
    }
  }

  /** What growth may change: nothing on failure; on success only the capacity, which at least doubles if it changes. */
  predicate MadeRoom(s: Arr, need: int, r: Outcome) {
    && Valid(r.st)
    && r.st == s.(cap := r.st.cap, copied := r.st.copied)
    && (!r.ok ==> r.st == s)
    && (r.ok ==> need <= r.st.cap)
    && (r.st.cap != s.cap ==> !s.settled && 2 * s.cap <= r.st.cap)
    && r.st.copied - s.copied <= r.st.cap - s.cap
    && s.cap <= r.st.cap
  }

  lemma ReserveMakesRoom(s: Arr, need: nat, alloc: bool)
    requires Valid(s) && need <= SIZE_MAX && Alignable(s, need)
    ensures MadeRoom(s, need, Reserve(s, need, alloc))
  {
    hide Offset, SizeAlign;
    if need <= SIZE_MAX - 7 {
      GrownCapCovers(s.cap, need);
    }
  }

  /** Growth never wraps, never loses capacity, and success means that the request fits. */
  lemma AdjustMakesRoom(s: Arr, n: nat, alloc: bool)
    requires Valid(s) && AdjustGuards(s, n)
    ensures MadeRoom(s, Offset(|s.elems| + n, s.eltSize), Adjust(s, n, alloc))
  {
    hide Offset, SizeAlign;
    var need := Offset(|s.elems| + n, s.eltSize);
    ReserveMakesRoom(s, need, alloc);
    assert Adjust(s, n, alloc) == Reserve(s, need, alloc);
  }

  /** Among the requests the guards let through, exactly these are safe: any other one shrinks the buffer to nothing. */
  lemma AdjustMakesRoomWhen(s: Arr, n: nat)
    requires Valid(s) && n <= SIZE_MAX && CheckedByAdjust(s, n)
    ensures (forall alloc :: MadeRoom(s, Offset(|s.elems| + n, s.eltSize), Adjust(s, n, alloc))) <==> AdjustGuards(s, n)
    ensures !AdjustGuards(s, n) ==> Adjust(s, n, true).ok && Adjust(s, n, true).st.cap == 0
  {
    hide SizeAlign, CheckedByAdjust;
    GuardsAreExact(s, n);
    if AdjustGuards(s, n) {
      forall alloc
        ensures MadeRoom(s, Offset(|s.elems| + n, s.eltSize), Adjust(s, n, alloc))
      {
        AdjustMakesRoom(s, n, alloc);
      }
    } else {
      assert !MadeRoom(s, Offset(|s.elems| + n, s.eltSize), Adjust(s, n, true));
    }
  }

  /** An empty array of 64 bytes, asked for SIZE_MAX more: the guards agree, and nothing is left of the buffer. */
  lemma GrownToNothing()
    ensures var s := Arr([], 1, 64, true, false, false, [], 0);
            && Valid(s) && CheckedByAdjust(s, SIZE_MAX)
            && Adjust(s, SIZE_MAX, true).ok && Adjust(s, SIZE_MAX, true).st.cap == 0
  {
    var s := Arr([], 1, 64, true, false, false, [], 0);
    OffsetUnit(1);
    OffsetProduct(SIZE_MAX, 1);
    GuardsAreExact(s, SIZE_MAX);
    AdjustMakesRoomWhen(s, SIZE_MAX);
  }

  /**
   * Exactly when a request is met: it fits already, or the array may grow, the allocator is willing and the result is
   * an object C allows.
   */
  lemma ReserveSucceedsWhen(s: Arr, need: nat, alloc: bool)
    requires s.cap <= OBJECT_MAX && need <= SIZE_MAX && Alignable(s, need)
    ensures Reserve(s, need, alloc).ok <==>
            || need < s.cap
            || (!s.settled && alloc && 2 * s.cap <= INT_MAX && need <= OBJECT_MAX - 7)
  {
    if need <= SIZE_MAX - 7 {
      SizeAlignRoundsUp(need);
      AlignKeepsObjectBound(need);
    }
  }

  lemma AlignKeepsObjectBound(need: nat)
    requires need <= SIZE_MAX - 7
    ensures SizeAlign(need) <= OBJECT_MAX <==> need <= OBJECT_MAX - 7
  {
    SizeAlignRoundsUp(need);
    assert (OBJECT_MAX - 7) % 8 == 0;
  }

  // ----- operations -----

  function Insert(s: Arr, p: nat, e: Elem, alloc: bool): Outcome
    requires p <= |s.elems|
  {
    var r := Adjust(s, 1, alloc);
    if !r.ok then r else Outcome(r.st.(elems := s.elems[..p] + [e] + s.elems[p..]), true)
  }

  function Inject(s: Arr, p: nat, es: seq<Elem>, alloc: bool): Outcome
    requires p <= |s.elems|
  {
    var r := Adjust(s, |es|, alloc);
    if !r.ok then r else Outcome(r.st.(elems := s.elems[..p] + es + s.elems[p..]), true)
  }

  function Push(s: Arr, e: Elem, alloc: bool): Outcome {
    var r := Adjust(s, 1, alloc);
    if !r.ok then r else Outcome(r.st.(elems := s.elems + [e]), true)
  }

  function Append(s: Arr, es: seq<Elem>, alloc: bool): Outcome {
    var r := Adjust(s, |es|, alloc);
    if !r.ok then r else Outcome(r.st.(elems := s.elems + es), true)
  }

  /** array_concat asks for room for its own size on top of the size of the other array. */
  function Concat(s: Arr, es: seq<Elem>, alloc: bool): Outcome {
    var r := Adjust(s, |s.elems| + |es|, alloc);
    if !r.ok then r else Outcome(r.st.(elems := s.elems + es), true)
  }

  function Destroy(s: Arr, es: seq<Elem>): Arr {
    if s.hasFree then s.(freed := s.freed + es) else s
  }

  function Pop(s: Arr): Arr
    requires |s.elems| > 0
  {
    var n := |s.elems| - 1;
    Destroy(s, [s.elems[n]]).(elems := s.elems[..n])
  }

  function Evict(s: Arr, p: nat): Arr
    requires p < |s.elems|
  {
    Destroy(s, [s.elems[p]]).(elems := s.elems[..p] + s.elems[p + 1..])
  }

  /** The destructor runs over the first `end - start` elements, whatever `start` is. */
  function Wipe(s: Arr, start: nat, end: nat): Arr
    requires start <= end <= |s.elems|
  {
    Destroy(s, s.elems[..end - start]).(elems := s.elems[..start] + s.elems[end..])
  }

  function Reverse<T>(s: seq<T>): (r: seq<T>)
    ensures |r| == |s|
  {
    if s == [] then [] else [s[|s| - 1]] + Reverse(s[..|s| - 1])
  }

  lemma ReverseStep<T>(s: seq<T>, n: nat)
    requires 0 < n <= |s|
    ensures Reverse(s[..n]) == [s[n - 1]] + Reverse(s[..n - 1])
  {
    assert s[..n][..n - 1] == s[..n - 1];
  }

  function Clear(s: Arr): Arr {
    Destroy(s, Reverse(s.elems)).(elems := [])
  }

  function Zeros(n: nat): Elem {
    seq(n, _ => 0)
  }

  /** Exchanging an element with itself by exclusive-or wipes it out. */
  function SwapElems(s: Arr, a: nat, b: nat): Arr
    requires a < |s.elems| && b < |s.elems|
  {
    if a == b then s.(elems := s.elems[a := Zeros(s.eltSize)])
    else s.(elems := s.elems[a := s.elems[b]][b := s.elems[a]])
  }

  /** realloc to zero bytes is outside this model: the array holds something, or the shrinking branch is not reached. */
  predicate SlimGuard(s: Arr) {
    s.settled || s.elems != [] || s.cap < 2
  }

  function Slim(s: Arr, alloc: bool): Outcome {
    var size := Offset(|s.elems|, s.eltSize);
    if s.settled then Outcome(s, false)
    else if s.cap != 0 && size < s.cap / 2 then
      if alloc then Outcome(s.(cap := size), true) else Outcome(s, false)
    else Outcome(s, true)
  }

  /** How many elements fit behind the `used` bytes. */
  function SpareElements(cap: nat, used: nat, e: nat): nat
    requires e > 0 && used <= cap
  {
    if cap - used != 0 then (cap - used) / e else 0
  }

  function Spare(s: Arr): nat
    requires s.eltSize > 0 && Offset(|s.elems|, s.eltSize) <= s.cap
  {
    SpareElements(s.cap, Offset(|s.elems|, s.eltSize), s.eltSize)
  }

  /** The application writes `es` behind the last element and then claims them. */
  function Claim(s: Arr, es: seq<Elem>): Outcome
    requires s.eltSize > 0 && Offset(|s.elems|, s.eltSize) <= s.cap
  {
    if |es| > Spare(s) then Outcome(s, false) else Outcome(s.(elems := s.elems + es), true)
  }

  function Settle(s: Arr): Arr {
    s.(settled := true)
  }

  function Unsettle(s: Arr): Arr {
    s.(settled := false)
  }

  // ----- copies -----

  /** A negative position counts from the end. */
  function Normal(size: nat, i: int): int {
    if i < 0 then i + size else i
  }

  predicate Pullable(size: nat, i: int) {
    (if i < 0 then -i else i) < size
  }

  /** Every element from `start` to `end`, both included, walking towards `end`. */
  function PullElems(elems: seq<Elem>, start: int, end: int): (r: seq<Elem>)
    requires Pullable(|elems|, start) && Pullable(|elems|, end)
  {
    Walk(elems, Normal(|elems|, start), Normal(|elems|, end))
  }

  function Walk(elems: seq<Elem>, from: nat, last: nat): (r: seq<Elem>)
    requires from < |elems| && last < |elems|
  {
    if from < last then elems[from..last + 1] else Backwards(elems, from, from - last + 1)
  }

  /** `n` elements, from position `from` downwards. */
  function Backwards(elems: seq<Elem>, from: nat, n: nat): (r: seq<Elem>)
    requires from < |elems| && n <= from + 1
  {
    seq(n, k requires 0 <= k < n => elems[from - k])
  }

  function FilterElems(elems: seq<Elem>, keep: Elem -> bool): seq<Elem> {
    if elems == [] then []
    else
      var n := |elems| - 1;
      FilterElems(elems[..n], keep) + if keep(elems[n]) then [elems[n]] else []
  }

  /** The kept ones among the first `n` elements, pushed one by one; the first failed push ends it. */
  function PushKept(s: Arr, elems: seq<Elem>, n: nat, keep: Elem -> bool, allocs: nat -> bool): Outcome
    requires n <= |elems|
  {
    if n == 0 then Outcome(s, true)
    else
      var r := PushKept(s, elems, n - 1, keep, allocs);
      if !r.ok || !keep(elems[n - 1]) then r else Push(r.st, elems[n - 1], allocs(n))
  }

  /** A new array as array_create makes it. */
  function Empty(eltSize: nat, n: nat, hasFree: bool): Arr {
    Arr([], eltSize, SizeAlign(Wrap(eltSize * if n == 0 then INITIAL_SIZE else n)), true, false, hasFree, [], 0)
  }

  lemma PushKeepsValid(s: Arr, e: Elem, alloc: bool)
    requires Valid(s) && |e| == s.eltSize && AdjustGuards(s, 1)
    ensures var r := Push(s, e, alloc);
            && Valid(r.st)
            && r.st == s.(elems := r.st.elems, cap := r.st.cap, copied := r.st.copied)
            && r.st.elems == if r.ok then s.elems + [e] else s.elems
  {
    hide Offset, SizeAlign;
    AdjustMakesRoom(s, 1, alloc);
  }

  lemma RoomForOneMore(s: Arr, limit: nat)
    requires limit <= SIZE_MAX && Offset(limit, s.eltSize) <= SIZE_MAX - 7
    ensures |s.elems| < limit ==> AdjustGuards(s, 1)
  {
  }

  /** Filtering keeps exactly the elements that pass, in order; it can only fail where a push fails. */
  lemma {:induction false} PushKeptFilters(s: Arr, elems: seq<Elem>, n: nat, keep: Elem -> bool, allocs: nat -> bool)
    requires Valid(s) && n <= |elems| && AllSized(elems, s.eltSize)
    requires |s.elems| + |elems| <= SIZE_MAX && Offset(|s.elems| + |elems|, s.eltSize) <= SIZE_MAX - 7
    ensures var r := PushKept(s, elems, n, keep, allocs);
            && Valid(r.st)
            && r.st == s.(elems := r.st.elems, cap := r.st.cap, copied := r.st.copied)
            && |r.st.elems| <= |s.elems| + n
            && (r.ok ==> r.st.elems == s.elems + FilterElems(elems[..n], keep))
            && (n < |elems| ==> AdjustGuards(r.st, 1))
  {
    hide Offset, SizeAlign, Push, Valid, AdjustGuards;
    if n > 0 {
      PushKeptFilters(s, elems, n - 1, keep, allocs);
      assert elems[..n][..n - 1] == elems[..n - 1];
      var r := PushKept(s, elems, n - 1, keep, allocs);
      if r.ok && keep(elems[n - 1]) {
        PushKeepsValid(r.st, elems[n - 1], allocs(n));
      }
    }
    RoomForOneMore(PushKept(s, elems, n, keep, allocs).st, |s.elems| + |elems|);
  }
}
