/**
 * The checked list of duty shifts and its overlaps (validateDutyShifts and
 * dutyShiftOverlaps in packages/domain/src/duty.ts).
 */
module DutyRoster {
  import opened Common
  import opened Calendar
  import opened Duty

  const MAX_ROW_ID: nat := 2147483647
  const MAX_DUTY_SHIFTS: nat := 400
  const MAX_DUTY_SHIFT_DAYS: int := 14

  datatype Refusal = TooMany | NoUser(index: nat) | NoInstant(index: nat) | EndBeforeStart(index: nat)

  predicate HasInstants(shift: DutyShift) {
    shift.startsAt.At? && shift.endsAt.At?
  }

  predicate RightLength(shift: DutyShift)
    requires HasInstants(shift)
  {
    shift.startsAt.ms < shift.endsAt.ms <= shift.startsAt.ms + MAX_DUTY_SHIFT_DAYS * DAY_MS
  }

  predicate Acceptable(shift: DutyShift): (acceptable: bool)
    ensures acceptable ==> HasInstants(shift)
  {
    1 <= shift.userId <= MAX_ROW_ID && HasInstants(shift) && RightLength(shift)
  }

  /** A known user, and from one instant to a later one at most fourteen days on. */
  lemma AcceptableExactlyWhen(shift: DutyShift)
    ensures Acceptable(shift) <==>
      && 1 <= shift.userId < 0x8000_0000 && shift.startsAt.At? && shift.endsAt.At?
      && 0 < shift.endsAt.ms - shift.startsAt.ms <= 14 * 24 * 60 * 60 * 1000
  {}

  /** By start, then by user. */
  predicate NotAfter(a: DutyShift, b: DutyShift)
    requires HasInstants(a) && HasInstants(b)
  {
    a.startsAt.ms < b.startsAt.ms || (a.startsAt.ms == b.startsAt.ms && a.userId <= b.userId)
  }

  ghost predicate AllAcceptable(shifts: seq<DutyShift>) {
    forall i :: 0 <= i < |shifts| ==> Acceptable(shifts[i])
  }

  ghost predicate InOrder(shifts: seq<DutyShift>)
    requires AllAcceptable(shifts)
  {
    forall i, j :: 0 <= i < j < |shifts| ==> NotAfter(shifts[i], shifts[j])
  }

  /** `shift` among sorted ones, after those it ties with. */
  function Placed(shifts: seq<DutyShift>, shift: DutyShift): (placed: seq<DutyShift>)
    requires AllAcceptable(shifts) && Acceptable(shift)
    ensures AllAcceptable(placed) && |placed| == |shifts| + 1
  {
    if shifts == [] || !NotAfter(shifts[0], shift) then [shift] + shifts
    else [shifts[0]] + Placed(shifts[1..], shift)
  }

  lemma {:induction false} PlacedContents(shifts: seq<DutyShift>, shift: DutyShift)
    requires AllAcceptable(shifts) && Acceptable(shift)
    ensures multiset(Placed(shifts, shift)) == multiset(shifts) + multiset{shift}
  {
    hide NotAfter, Acceptable;
    if shifts != [] {
      PlacedContents(shifts[1..], shift);
      assert shifts == [shifts[0]] + shifts[1..];
    }
  }

  lemma {:induction false} PlacedInOrder(shifts: seq<DutyShift>, shift: DutyShift)
    requires AllAcceptable(shifts) && Acceptable(shift) && InOrder(shifts)
    ensures InOrder(Placed(shifts, shift))
  {
    hide Acceptable, HasInstants;
    if shifts != [] && NotAfter(shifts[0], shift) {
      PlacedInOrder(shifts[1..], shift);
      PlacedContents(shifts[1..], shift);
      var placed := Placed(shifts[1..], shift);
      forall i | 0 <= i < |placed|
        ensures NotAfter(shifts[0], placed[i])
      {
        assert placed[i] in multiset(placed);
        if placed[i] != shift { FirstIsFirst(shifts, placed[i]); }
      }
    } else if shifts != [] {
      forall i | 0 <= i < |shifts|
        ensures NotAfter(shift, shifts[i])
      {
        if i > 0 { assert NotAfter(shifts[0], shifts[i]); }
      }
    }
  }

  lemma FirstIsFirst(shifts: seq<DutyShift>, later: DutyShift)
    requires AllAcceptable(shifts) && InOrder(shifts) && shifts != [] && later in multiset(shifts[1..])
    ensures Acceptable(later) && NotAfter(shifts[0], later)
  {
    var k :| 0 <= k < |shifts[1..]| && shifts[1..][k] == later;
    assert shifts[k + 1] == later;
  }

  /** The list by start and user; ties keep their order. */
  function Sorted(shifts: seq<DutyShift>): (sorted: seq<DutyShift>)
    requires AllAcceptable(shifts)
    ensures AllAcceptable(sorted)
  {
    if shifts == [] then [] else Placed(Sorted(shifts[..|shifts| - 1]), shifts[|shifts| - 1])
  }

  lemma {:induction false} SortedKeeps(shifts: seq<DutyShift>)
    requires AllAcceptable(shifts)
    ensures InOrder(Sorted(shifts)) && multiset(Sorted(shifts)) == multiset(shifts)
  {
    if shifts != [] {
      var last := |shifts| - 1;
      SortedKeeps(shifts[..last]);
      PlacedInOrder(Sorted(shifts[..last]), shifts[last]);
      PlacedContents(Sorted(shifts[..last]), shifts[last]);
      assert shifts == shifts[..last] + [shifts[last]];
    }
  }

  lemma {:induction false} PlacedLast(shifts: seq<DutyShift>, shift: DutyShift)
    requires AllAcceptable(shifts) && Acceptable(shift)
    requires forall i :: 0 <= i < |shifts| ==> NotAfter(shifts[i], shift)
    ensures Placed(shifts, shift) == shifts + [shift]
  {
    if shifts != [] {
      PlacedLast(shifts[1..], shift);
    }
  }

  /** A list in order stays as it is. */
  lemma {:induction false} SortedTwice(shifts: seq<DutyShift>)
    requires AllAcceptable(shifts) && InOrder(shifts)
    ensures Sorted(shifts) == shifts
  {
    if shifts != [] {
      var last := |shifts| - 1;
      SortedTwice(shifts[..last]);
      PlacedLast(shifts[..last], shifts[last]);
    }
  }

  /** Why a list is refused: too long, or its first bad shift's first fault. */
  ghost predicate Refuses(raw: seq<DutyShift>, refusal: Refusal) {
    if refusal.TooMany? then |raw| > 400
    else
      && refusal.index < |raw| <= 400 && AllAcceptable(raw[..refusal.index])
      && var shift := raw[refusal.index];
        var known := 1 <= shift.userId <= MAX_ROW_ID;
        match refusal
        case NoUser(_) => !known
        case NoInstant(_) => known && !HasInstants(shift)
        case EndBeforeStart(_) => known && HasInstants(shift) && !RightLength(shift)
  }

  /** In the order of the starts, and of the user ids where starts are equal. */
  ghost predicate ByStartThenUser(shifts: seq<DutyShift>)
    requires AllAcceptable(shifts)
  {
    forall i, j :: 0 <= i < j < |shifts| ==>
      var a, b := shifts[i], shifts[j];
      a.startsAt.ms < b.startsAt.ms || (a.startsAt.ms == b.startsAt.ms && a.userId <= b.userId)
  }

  /** The first shift that is refused, and why; otherwise the list, sorted. */
  method ValidateDutyShifts(raw: seq<DutyShift>) returns (result: Result<seq<DutyShift>, Refusal>)
    ensures result.Ok? <==> |raw| <= 400 && AllAcceptable(raw)
    ensures result.Ok? ==>
      AllAcceptable(result.value) && ByStartThenUser(result.value) && multiset(result.value) == multiset(raw)
    ensures result.Ok? && InOrder(raw) ==> result.value == raw
    ensures result.Err? ==> Refuses(raw, result.error)
  {
    if |raw| > MAX_DUTY_SHIFTS { return Err(TooMany); }
    var shifts: seq<DutyShift> := [];
    for i := 0 to |raw|
      invariant AllAcceptable(raw[..i]) && shifts == Sorted(raw[..i])
    {
      var entry := raw[i];
      if !(1 <= entry.userId <= MAX_ROW_ID) { return Err(NoUser(i)); }
      if !HasInstants(entry) { return Err(NoInstant(i)); }
      if !RightLength(entry) { return Err(EndBeforeStart(i)); }
      assert raw[..i + 1][..i] == raw[..i];
      shifts := Placed(shifts, entry);
    }
    assert raw[..|raw|] == raw;
    SortedKeeps(raw);
    if InOrderNow(raw) { SortedTwice(raw); }
    return Ok(shifts);
  }

  ghost predicate InOrderNow(shifts: seq<DutyShift>) {
    AllAcceptable(shifts) && InOrder(shifts)
  }

  // ---------------------------------------------------------------------
  // Overlaps.

  /** Running at an instant: from the start, up to but not including the end. */
  predicate RunsAt(shift: DutyShift, t: int) {
    HasInstants(shift) && shift.startsAt.ms <= t < shift.endsAt.ms
  }

  predicate Overlap(a: DutyShift, b: DutyShift) {
    HasInstants(a) && HasInstants(b) && a.startsAt.ms < b.endsAt.ms && b.startsAt.ms < a.endsAt.ms
  }

  /** Lexicographic order of index pairs. */
  predicate Earlier(p: (nat, nat), q: (nat, nat)) {
    p.0 < q.0 || (p.0 == q.0 && p.1 < q.1)
  }

  /** Exactly the overlapping pairs with an index before `bound`'s, each once and in order. */
  ghost predicate PairsUpTo(pairs: seq<(nat, nat)>, shifts: seq<DutyShift>, bound: (nat, nat)) {
    && (forall i: nat, j: nat :: (i, j) in pairs <==>
      i < j < |shifts| && Earlier((i, j), bound) && Overlap(shifts[i], shifts[j]))
    && (forall a, b :: 0 <= a < b < |pairs| ==> Earlier(pairs[a], pairs[b]))
  }

  method DutyShiftOverlaps(shifts: seq<DutyShift>) returns (pairs: seq<(nat, nat)>)
    ensures PairsUpTo(pairs, shifts, (|shifts|, 0))
  {
    hide Overlap;
    pairs := [];
    for i: nat := 0 to |shifts|
      invariant PairsUpTo(pairs, shifts, (i, 0))
    {
      for j: nat := i + 1 to |shifts|
        invariant PairsUpTo(pairs, shifts, (i, j))
      {
        ghost var before := pairs;
        if Overlap(shifts[i], shifts[j]) {
          pairs := pairs + [(i, j)];
          forall a | 0 <= a < |before|
            ensures Earlier(before[a], (i, j))
          {
            var p := before[a];
            assert (p.0, p.1) in before;
          }
        }
      }
    }
  }

  /** Two shifts of valid length are reported together exactly when both run at some instant. */
  lemma OverlapMeansTogether(a: DutyShift, b: DutyShift)
    requires Acceptable(a) && Acceptable(b)
    ensures Overlap(a, b) <==> exists t :: RunsAt(a, t) && RunsAt(b, t)
  {
    if Overlap(a, b) {
      var t := Max(a.startsAt.ms, b.startsAt.ms);
      assert RunsAt(a, t) && RunsAt(b, t);
    }
  }
}
