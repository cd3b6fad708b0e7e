/** What the array operations do, position by position and without the functions that specify them. */
module ArrayMeaning {
  import opened CMachine
  import opened Chunks
  import opened ArraySpec
  import opened ArrayRuns

  // ----- reference definitions -----

  /** `now` is `was` with `more` in front of position `p`. */
  predicate PutBefore(was: seq<Elem>, p: nat, more: seq<Elem>, now: seq<Elem>) {
    && p <= |was| && |now| == |was| + |more|
    && (forall i :: 0 <= i < p ==> now[i] == was[i])
    && (forall j :: 0 <= j < |more| ==> now[p + j] == more[j])
    && (forall i :: p <= i < |was| ==> now[i + |more|] == was[i])
  }

  /** `now` is `was` without the elements from `p` up to but not including `q`. */
  predicate TakenOut(was: seq<Elem>, p: int, q: int, now: seq<Elem>) {
    && 0 <= p <= q <= |was| && |now| == |was| - (q - p)
    && (forall i :: 0 <= i < p ==> now[i] == was[i])
    && (forall i :: q <= i < |was| ==> now[i - (q - p)] == was[i])
  }

  /** Nothing but the elements, what was destroyed and the room for them may differ. */
  predicate SameFlags(s: Arr, t: Arr) {
    t.eltSize == s.eltSize && t.owner == s.owner && t.settled == s.settled && t.hasFree == s.hasFree
  }

  predicate SameRoom(s: Arr, t: Arr) {
    t.cap == s.cap && t.copied == s.copied
  }

  /** The destructor, if there is one, ran on `n` elements, the k-th of them the one at position `at(k)`. */
  predicate DestroyedAt(s: Arr, t: Arr, n: int, at: int -> int) {
    if !s.hasFree then t.freed == s.freed
    else
      && 0 <= n && |t.freed| == |s.freed| + n
      && (forall k :: 0 <= k < |s.freed| ==> t.freed[k] == s.freed[k])
      && (forall k :: 0 <= k < n ==> 0 <= at(k) < |s.elems| && t.freed[|s.freed| + k] == s.elems[at(k)])
  }

  /** Room for `need` bytes: there already, or doubled, at least 64 bytes, or the least multiple of 8 that is enough. */
  predicate HasRoom(s: Arr, need: nat, t: Arr) {
    if need < s.cap then SameRoom(s, t)
    else
      && t.copied == s.copied + s.cap
      && if need <= 64 || need <= 2 * s.cap then t.cap == (if 2 * s.cap < 64 then 64 else 2 * s.cap)
         else need <= t.cap < need + 8 && t.cap % 8 == 0
  }

  /** Whether there can be room. */
  predicate MayHaveRoom(s: Arr, need: nat, alloc: bool) {
    need < s.cap || (!s.settled && alloc && 2 * s.cap <= INT_MAX && need <= OBJECT_MAX - 7)
  }

  // ----- putting in -----

  /** Where an operation puts its elements. */
  function Where(s: Arr, op: Op): nat
    requires Grows(op)
  {
    match op
    case DoPushFront(_) => 0
    case DoInsert(p, _) => p
    case DoInject(p, _) => p
    case _ => |s.elems|
  }

  function BytesAsked(s: Arr, op: Op): nat
    requires Grows(op)
  {
    match op
    case DoInject(_, es) => Offset(|s.elems| + |es|, s.eltSize)
    case DoAppend(es) => Offset(|s.elems| + |es|, s.eltSize)
    case DoConcat(es) => Offset(|s.elems| + |s.elems| + |es|, s.eltSize)
    case _ => Offset(|s.elems| + 1, s.eltSize)
  }

  lemma RoomMeans(s: Arr, need: nat, alloc: bool)
    requires Valid(s) && need <= SIZE_MAX && Alignable(s, need)
    ensures var r := ArraySpec.Reserve(s, need, alloc);
            && (r.ok <==> MayHaveRoom(s, need, alloc))
            && (!r.ok ==> r.st == s)
            && (r.ok ==> HasRoom(s, need, r.st) && r.st == s.(cap := r.st.cap, copied := r.st.copied))
  {
    hide Offset, SizeAlign;
    ReserveSucceedsWhen(s, need, alloc);
    if need <= SIZE_MAX - 7 {
      SizeAlignRoundsUp(need);
    }
  }

  /** All a growing operation does: where the new elements go, what moves, when it fails, and how much room it makes. */
  lemma GrowingMeans(s: Arr, c: Call)
    requires Valid(s) && Enabled(s, c.op) && Grows(c.op)
    ensures var r := Step(s, c);
            && (r.ok <==> MayHaveRoom(s, BytesAsked(s, c.op), c.alloc))
            && (!r.ok ==> r.st == s)
            && (r.ok ==>
                  && PutBefore(s.elems, Where(s, c.op), Given(c.op), r.st.elems)
                  && HasRoom(s, BytesAsked(s, c.op), r.st)
                  && SameFlags(s, r.st) && r.st.freed == s.freed)
  {
    var need := BytesAsked(s, c.op);
    GrowsAsAsked(s, c);
    hide Offset, Reserve, HasRoom, MayHaveRoom, ArraySpec.Valid, PutBefore, Step, BytesAsked, Alignable;
    RoomMeans(s, need, c.alloc);
    RoomIgnoresElements(s, need, Reserve(s, need, c.alloc).st, Step(s, c).st);
  }

  /** Room first, and then the elements in their place. */
  lemma GrowsAsAsked(s: Arr, c: Call)
    requires Valid(s) && Enabled(s, c.op) && Grows(c.op)
    ensures var need, r := BytesAsked(s, c.op), Step(s, c);
            var room := Reserve(s, need, c.alloc);
            && need <= SIZE_MAX && Alignable(s, need) && r.ok == room.ok
            && (!r.ok ==> r == room)
            && (r.ok ==> r.st == room.st.(elems := r.st.elems))
            && (r.ok ==> PutBefore(s.elems, Where(s, c.op), Given(c.op), r.st.elems))
  {
    hide Offset, Reserve, ArraySpec.Valid, PutBefore;
    assert BytesAsked(s, c.op) == Offset(|s.elems| + Requested(s, c.op), s.eltSize);
    PutInTheMiddle(s.elems, Where(s, c.op), Given(c.op));
    PutAtTheEnd(s.elems, Given(c.op));
  }

  lemma PutInTheMiddle(was: seq<Elem>, p: nat, more: seq<Elem>)
    requires p <= |was|
    ensures PutBefore(was, p, more, was[..p] + more + was[p..])
  {
  }

  lemma PutAtTheEnd(was: seq<Elem>, more: seq<Elem>)
    ensures PutBefore(was, |was|, more, was + more)
  {
  }

  lemma RoomIgnoresElements(s: Arr, need: nat, t: Arr, u: Arr)
    requires t.cap == u.cap && t.copied == u.copied
    ensures HasRoom(s, need, t) <==> HasRoom(s, need, u)
  {
  }

  // ----- taking out -----

  lemma PopMeans(s: Arr)
    requires s.elems != []
    ensures var t, n := Pop(s), |s.elems| - 1;
            && TakenOut(s.elems, n, n + 1, t.elems) && DestroyedAt(s, t, 1, k => n)
            && SameFlags(s, t) && SameRoom(s, t)
  {
  }

  lemma EvictMeans(s: Arr, p: nat)
    requires p < |s.elems|
    ensures var t := Evict(s, p);
            && TakenOut(s.elems, p, p + 1, t.elems) && DestroyedAt(s, t, 1, k => p)
            && SameFlags(s, t) && SameRoom(s, t)
  {
  }

  lemma WipeMeans(s: Arr, start: nat, end: nat)
    requires start <= end <= |s.elems|
    ensures var t := Wipe(s, start, end);
            && TakenOut(s.elems, start, end, t.elems) && DestroyedAt(s, t, end - start, k => k)
            && SameFlags(s, t) && SameRoom(s, t)
  {
  }

  lemma ClearMeans(s: Arr)
    ensures var t := Clear(s);
            && t.elems == [] && DestroyedAt(s, t, |s.elems|, k => |s.elems| - 1 - k)
            && SameFlags(s, t) && SameRoom(s, t)
  {
    if s.hasFree {
      forall k | 0 <= k < |s.elems|
        ensures Reverse(s.elems)[k] == s.elems[|s.elems| - 1 - k]
      {
        ReverseAt(s.elems, k);
      }
    }
  }

  /** All a removing operation does: which elements go, and which are destroyed in which order. */
  lemma RemovingMeans(s: Arr, c: Call)
    requires Valid(s) && Enabled(s, c.op)
    requires c.op.DoPop? || c.op.DoPopFront? || c.op.DoEvict? || c.op.DoWipe? || c.op.DoClear?
    ensures var r, n := Step(s, c), |s.elems|;
            && r.ok && SameFlags(s, r.st) && SameRoom(s, r.st)
            && match c.op
               case DoPop => TakenOut(s.elems, n - 1, n, r.st.elems) && DestroyedAt(s, r.st, 1, k => n - 1)
               case DoPopFront => TakenOut(s.elems, 0, 1, r.st.elems) && DestroyedAt(s, r.st, 1, k => 0)
               case DoEvict(p) => TakenOut(s.elems, p, p + 1, r.st.elems) && DestroyedAt(s, r.st, 1, k => p)
               case DoWipe(start, end) =>
                 TakenOut(s.elems, start, end, r.st.elems) && DestroyedAt(s, r.st, end - start, k => k)
               case _ => r.st.elems == [] && DestroyedAt(s, r.st, n, k => n - 1 - k)
  {
    hide TakenOut, DestroyedAt, Pop, Evict, Wipe, Clear;
    match c.op {
      case DoPop => PopMeans(s);
      case DoPopFront => EvictMeans(s, 0);
      case DoEvict(p) => EvictMeans(s, p);
      case DoWipe(start, end) => WipeMeans(s, start, end);
      case DoClear => ClearMeans(s);
    }
  }

  // ----- the other operations -----

  /** Settling, unsettling and swapping change what they name and nothing else. */
  lemma InPlaceMeans(s: Arr, c: Call)
    requires Valid(s) && Enabled(s, c.op) && (c.op.DoSettle? || c.op.DoUnsettle? || c.op.DoSwap?)
    ensures var r := Step(s, c);
            && r.ok && SameRoom(s, r.st) && r.st.freed == s.freed
            && r.st.eltSize == s.eltSize && r.st.owner == s.owner && r.st.hasFree == s.hasFree
            && r.st.settled == (if c.op.DoSettle? then true else if c.op.DoUnsettle? then false else s.settled)
            && (!c.op.DoSwap? ==> r.st.elems == s.elems)
            && (c.op.DoSwap? ==>
                  && |r.st.elems| == |s.elems|
                  && (forall i :: 0 <= i < |s.elems| && i != c.op.a && i != c.op.b ==> r.st.elems[i] == s.elems[i])
                  && (c.op.a != c.op.b ==>
                        r.st.elems[c.op.a] == s.elems[c.op.b] && r.st.elems[c.op.b] == s.elems[c.op.a])
                  && (c.op.a == c.op.b ==>
                        |r.st.elems[c.op.a]| == s.eltSize
                        && forall k :: 0 <= k < s.eltSize ==> r.st.elems[c.op.a][k] == 0))
  {
  }

  /** The array shrinks to its elements exactly when it may, memory allows, and they take less than half of its room. */
  lemma SlimMeans(s: Arr, alloc: bool)
    requires Valid(s)
    ensures var r, used := Slim(s, alloc), Offset(|s.elems|, s.eltSize);
            && (r.ok <==> !s.settled && (alloc || s.cap < 2 * used + 2))
            && r.st == s.(cap := if r.ok && 2 * used + 2 <= s.cap then used else s.cap)
  {
    hide Offset;
  }

  /** How many elements fit: as many as this, and not one more. */
  lemma SpareMeans(s: Arr)
    requires Valid(s)
    ensures Offset(|s.elems| + Spare(s), s.eltSize) <= s.cap < Offset(|s.elems| + Spare(s) + 1, s.eltSize)
  {
    var e, used := s.eltSize, Offset(|s.elems|, s.eltSize);
    var bytes := s.cap - used;
    var n, rest := bytes / e, bytes % e;
    assert bytes == e * n + rest;
    OffsetSum(|s.elems|, n, e);
    OffsetSum(|s.elems|, n + 1, e);
    OffsetSum(n, 1, e);
    OffsetProduct(n, e);
    OffsetUnit(e);
  }

  /** Elements are claimed exactly when they fit, and then they are last. */
  lemma ClaimMeans(s: Arr, es: seq<Elem>)
    requires Valid(s)
    ensures var r := Claim(s, es);
            && (r.ok <==> Offset(|s.elems| + |es|, s.eltSize) <= s.cap)
            && (!r.ok ==> r.st == s)
            && (r.ok ==> PutBefore(s.elems, |s.elems|, es, r.st.elems) && r.st == s.(elems := r.st.elems))
  {
    SpareMeans(s);
    hide Offset, Spare;
    if |es| <= Spare(s) {
      OffsetMonotone(|s.elems| + |es|, |s.elems| + Spare(s), s.eltSize);
    } else {
      OffsetMonotone(|s.elems| + Spare(s) + 1, |s.elems| + |es|, s.eltSize);
    }
  }

  /** A new array is empty, and its capacity the least multiple of 8 bytes that holds what was asked for. */
  lemma NewArrayMeans(eltSize: nat, n: nat, hasFree: bool)
    requires 0 < eltSize && eltSize * (if n == 0 then 64 else n) <= SIZE_MAX - 7
    ensures var t, bytes := Empty(eltSize, n, hasFree), eltSize * if n == 0 then 64 else n;
            && t.elems == [] && t.freed == [] && t.copied == 0
            && t.eltSize == eltSize && t.hasFree == hasFree && t.owner && !t.settled
            && bytes <= t.cap < bytes + 8 && t.cap % 8 == 0
  {
    SizeAlignRoundsUp(eltSize * if n == 0 then 64 else n);
  }

  // ----- filtering -----

  /** Filtering works on every part alike and keeps the order; these three equations leave no other function. */
  lemma {:induction false} FilterMeans(a: seq<Elem>, b: seq<Elem>, e: Elem, keep: Elem -> bool)
    ensures FilterElems([], keep) == []
    ensures FilterElems([e], keep) == if keep(e) then [e] else []
    ensures FilterElems(a + b, keep) == FilterElems(a, keep) + FilterElems(b, keep)
    decreases |b|
  {
    assert [e][..0] == [];
    if b == [] {
      assert a + b == a;
    } else {
      var n := |b| - 1;
      FilterMeans(a, b[..n], e, keep);
      assert (a + b)[..|a + b| - 1] == a + b[..n];
    }
  }

  // ----- whole runs -----

  lemma {:induction false} RunSplits(s: Arr, first: seq<Call>, second: seq<Call>)
    requires Valid(s) && Runnable(s, first + second)
    ensures Runnable(s, first) && Runnable(Run(s, first), second)
    ensures Run(s, first + second) == Run(Run(s, first), second)
    decreases |first|
  {
    hide Step, Enabled;
    if first == [] {
      assert first + second == second;
    } else {
      StepKeeps(s, first[0]);
      assert (first + second)[1..] == first[1..] + second;
      RunSplits(Step(s, first[0]).st, first[1..], second);
    }
  }

  predicate NeverUnsettles(calls: seq<Call>) {
    forall i :: 0 <= i < |calls| ==> !calls[i].op.DoUnsettle?
  }

  /** A run that settles the array first, whatever its state: it is settled ever after, and its buffer stays as is. */
  lemma SettlingFixesTheBuffer(s: Arr, calls: seq<Call>)
    requires Valid(s) && Runnable(s, calls) && calls != [] && calls[0].op.DoSettle? && NeverUnsettles(calls)
    ensures var t := Run(s, calls); t.settled && t.cap == s.cap && t.copied == s.copied
  {
    StepKeeps(s, calls[0]);
    InPlaceMeans(s, calls[0]);
    assert forall i :: 0 <= i < |calls[1..]| ==> calls[1..][i] == calls[i + 1];
    SettledStaysInPlace(Step(s, calls[0]).st, calls[1..]);
  }

  /** Wherever in a run the array is settled, its buffer stays what it was then until the array is unsettled. */
  lemma SettledFromThenOn(s: Arr, before: seq<Call>, after: seq<Call>)
    requires Valid(s) && Runnable(s, before + after) && after != [] && after[0].op.DoSettle? && NeverUnsettles(after)
    ensures Runnable(s, before)
    ensures var t, u := Run(s, before), Run(s, before + after); u.settled && u.cap == t.cap && u.copied == t.copied
  {
    RunSplits(s, before, after);
    SettlingFixesTheBuffer(Run(s, before), after);
  }

  /** An array that is settled refuses what does not fit; one that was unsettled last may grow. */
  lemma LastFlagCounts(s: Arr, calls: seq<Call>)
    requires Valid(s) && Runnable(s, calls) && calls != []
    ensures var last := calls[|calls| - 1].op;
            && (last.DoSettle? ==> Run(s, calls).settled)
            && (last.DoUnsettle? ==> !Run(s, calls).settled)
            && (last.DoClear? ==> Run(s, calls).elems == [])
  {
    hide Step, Enabled;
    var front, last := calls[..|calls| - 1], calls[|calls| - 1];
    assert calls == front + [last];
    RunSplits(s, front, [last]);
    var t := Run(s, front);
    OneCall(t, last);
    if last.op.DoClear? {
      RemovingMeans(t, last);
    } else if last.op.DoSettle? || last.op.DoUnsettle? {
      InPlaceMeans(t, last);
    }
  }

  lemma OneCall(s: Arr, c: Call)
    requires Valid(s) && Runnable(s, [c])
    ensures Enabled(s, c.op) && Run(s, [c]) == Step(s, c).st
  {
    hide Step, Enabled;
    assert [c][1..] == [];
    StepKeepsIf(s, [c]);
  }

  /** Appending a block leaves the elements that pushing each of its elements in order leaves. */
  lemma {:induction false} AppendIsPushes(s: Arr, es: seq<Elem>, calls: seq<Call>, c: Call)
    requires Valid(s) && Runnable(s, calls) && |calls| == |es|
    requires forall i :: 0 <= i < |es| ==> calls[i].op == DoPush(es[i])
    requires AllSucceed(s, calls)
    requires (c.op == DoAppend(es) || c.op == DoConcat(es)) && Enabled(s, c.op) && Step(s, c).ok
    ensures Run(s, calls).elems == Step(s, c).st.elems
  {
    PushesAdd(s, es, calls);
    GrowingMeans(s, c);
    hide Step, Enabled, Run;
    var now := Step(s, c).st.elems;
    assert now == s.elems + es;
  }

  predicate AllSucceed(s: Arr, calls: seq<Call>)
    requires Valid(s) && Runnable(s, calls)
    decreases calls
  {
    StepKeepsIf(s, calls);
    calls != [] ==> Step(s, calls[0]).ok && AllSucceed(Step(s, calls[0]).st, calls[1..])
  }

  lemma {:induction false} PushesAdd(s: Arr, es: seq<Elem>, calls: seq<Call>)
    requires Valid(s) && Runnable(s, calls) && |calls| == |es| && AllSucceed(s, calls)
    requires forall i :: 0 <= i < |es| ==> calls[i].op == DoPush(es[i])
    ensures Run(s, calls).elems == s.elems + es
    decreases |es|
  {
    hide Step, Enabled;
    if es == [] {
      assert s.elems + es == s.elems;
    } else {
      StepKeeps(s, calls[0]);
      GrowingMeans(s, calls[0]);
      var t := Step(s, calls[0]).st;
      assert t.elems == s.elems + [es[0]];
      PushesAdd(t, es[1..], calls[1..]);
      assert s.elems + [es[0]] + es[1..] == s.elems + es;
    }
  }
}
