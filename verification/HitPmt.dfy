/**
 The photons a PMT has detected. Above a number of photons, new ones are merged
 with stored ones close in time; the PMTs of an event are kept in a list and
 looked up by their id.
 */
module HitPmt {
  import opened Wrappers
  import opened Sequences

  datatype Photon = Photon(pmtid: int, time: real, count: int)

  const MERGE_TIME: real := 1.0

  // ---------------------------------------------------- what a list of photons tells

  function Total(ps: seq<Photon>): int {
    if ps == [] then 0 else ps[0].count + Total(ps[1..])
  }

  /** What a photon adds to the count at or before t. */
  function Shown(p: Photon, t: real): int {
    if p.time <= t then p.count else 0
  }

  /** The count at or before time t. */
  function UpTo(ps: seq<Photon>, t: real): int {
    if ps == [] then 0 else Shown(ps[0], t) + UpTo(ps[1..], t)
  }

  predicate Sorted(ps: seq<Photon>) {
    forall i, j :: 0 <= i < j < |ps| ==> ps[i].time <= ps[j].time
  }

  /** A time is that of some photon. */
  predicate HasTime(ps: seq<Photon>, t: real) {
    exists i :: 0 <= i < |ps| && ps[i].time == t
  }

  /** Some photon is no later than t. */
  predicate HasBefore(ps: seq<Photon>, t: real) {
    exists i :: 0 <= i < |ps| && ps[i].time <= t
  }

  predicate NonNegative(ps: seq<Photon>) {
    forall i :: 0 <= i < |ps| ==> ps[i].count >= 0
  }

  /**
   What stored photons keep of the detected ones: the total count, times that were
   detected, nothing before the first or after its time, and so, for counts
   that are not negative, no count later than it was detected.
   */
  ghost predicate Faithful(stored: seq<Photon>, detected: seq<Photon>) {
    && Total(stored) == Total(detected)
    && OnlyTimesOf(stored, detected)
    && NoneLater(stored, detected)
    && (NonNegative(detected) ==> NonNegative(stored) && forall t :: UpTo(stored, t) >= UpTo(detected, t))
  }

  ghost predicate OnlyTimesOf(stored: seq<Photon>, detected: seq<Photon>) {
    forall i :: 0 <= i < |stored| ==> HasTime(detected, stored[i].time)
  }

  ghost predicate NoneLater(stored: seq<Photon>, detected: seq<Photon>) {
    forall i :: 0 <= i < |detected| ==> HasBefore(stored, detected[i].time)
  }

  lemma {:induction false} SumsConcat(ps: seq<Photon>, qs: seq<Photon>, t: real)
    ensures Total(ps + qs) == Total(ps) + Total(qs) && UpTo(ps + qs, t) == UpTo(ps, t) + UpTo(qs, t)
  {
    if ps == [] {
      assert ps + qs == qs;
    } else {
      SumsConcat(ps[1..], qs, t);
      assert (ps + qs)[1..] == ps[1..] + qs;
    }
  }

  /** Sums around the photon at k. */
  lemma SumsAt(ps: seq<Photon>, k: nat, t: real)
    requires k < |ps|
    ensures Total(ps) == Total(ps[..k]) + ps[k].count + Total(ps[k + 1..])
    ensures UpTo(ps, t) == UpTo(ps[..k], t) + Shown(ps[k], t) + UpTo(ps[k + 1..], t)
  {
    assert ps == ps[..k] + ([ps[k]] + ps[k + 1..]);
    SumsConcat(ps[..k], [ps[k]] + ps[k + 1..], t);
    SumsConcat([ps[k]], ps[k + 1..], t);
  }

  lemma SumsWithout(ps: seq<Photon>, k: nat, t: real)
    requires k < |ps|
    ensures Total(ps) == Total(Without(ps, k)) + ps[k].count
    ensures UpTo(ps, t) == UpTo(Without(ps, k), t) + Shown(ps[k], t)
  {
    SumsAt(ps, k, t);
    SumsConcat(ps[..k], ps[k + 1..], t);
  }

  lemma {:induction false} SumsOfMultiset(ps: seq<Photon>, qs: seq<Photon>, t: real)
    requires multiset(ps) == multiset(qs)
    ensures Total(ps) == Total(qs) && UpTo(ps, t) == UpTo(qs, t)
    decreases |ps|
  {
    if ps == [] {
      assert |multiset(qs)| == 0;
    } else {
      hide Total, UpTo, Without;
      assert ps[0] in multiset(qs);
      var k: nat :| k < |qs| && qs[k] == ps[0];
      SumsWithout(ps, 0, t);
      SumsWithout(qs, k, t);
      MultisetWithout(ps, 0);
      MultisetWithout(qs, k);
      SumsOfMultiset(Without(ps, 0), Without(qs, k), t);
    }
  }

  lemma TimesPermuted(ps: seq<Photon>, qs: seq<Photon>, detected: seq<Photon>)
    requires multiset(ps) == multiset(qs)
    ensures OnlyTimesOf(ps, detected) ==> OnlyTimesOf(qs, detected)
    ensures NonNegative(ps) ==> NonNegative(qs)
  {
    forall i | 0 <= i < |qs|
      ensures exists j :: 0 <= j < |ps| && ps[j] == qs[i]
    {
      assert qs[i] in multiset(ps);
    }
  }

  lemma LeadPermuted(ps: seq<Photon>, qs: seq<Photon>, detected: seq<Photon>)
    requires multiset(ps) == multiset(qs) && NoneLater(ps, detected)
    ensures NoneLater(qs, detected)
  {
    forall i | 0 <= i < |detected|
      ensures HasBefore(qs, detected[i].time)
    {
      var j: nat :| j < |ps| && ps[j].time <= detected[i].time;
      assert ps[j] in multiset(qs);
      var l: nat :| l < |qs| && qs[l] == ps[j];
    }
  }

  /** Order does not matter. */
  lemma FaithfulPermuted(ps: seq<Photon>, qs: seq<Photon>, detected: seq<Photon>)
    requires Faithful(ps, detected) && multiset(ps) == multiset(qs)
    ensures Faithful(qs, detected)
  {
    hide Total, UpTo, OnlyTimesOf, NoneLater, NonNegative;
    forall t
      ensures UpTo(ps, t) == UpTo(qs, t)
    {
      SumsOfMultiset(ps, qs, t);
    }
    SumsOfMultiset(ps, qs, 0.0);
    TimesPermuted(ps, qs, detected);
    LeadPermuted(ps, qs, detected);
  }

  // ------------------------------------------------------------ merging one photon

  /** Where lower_bound points: behind all earlier photons. */
  predicate LowerBound(ps: seq<Photon>, t: real, k: nat) {
    k <= |ps| && (forall i :: 0 <= i < k ==> ps[i].time < t) && (forall i :: k <= i < |ps| ==> ps[i].time >= t)
  }

  function AddTo(q: Photon, p: Photon): Photon {
    q.(count := q.count + p.count)
  }

  /** The photons after p, whose place is k, has been merged with a neighbour or inserted. */
  function Merged(ps: seq<Photon>, p: Photon, k: nat): seq<Photon>
    requires k <= |ps|
  {
    if k > 0 && p.time - ps[k - 1].time < MERGE_TIME then ps[k - 1 := AddTo(ps[k - 1], p)]
    else if k > 0 && k < |ps| && ps[k].time - p.time < MERGE_TIME then ps[k := AddTo(ps[k], p).(time := p.time)]
    else ps[..k] + [p] + ps[k..]
  }

  lemma UpdatedSums(ps: seq<Photon>, k: nat, q: Photon, t: real)
    requires k < |ps|
    ensures Total(ps[k := q]) == Total(ps) - ps[k].count + q.count
    ensures UpTo(ps[k := q], t) == UpTo(ps, t) - Shown(ps[k], t) + Shown(q, t)
  {
    hide Total, UpTo;
    var qs := ps[k := q];
    SumsAt(ps, k, t);
    SumsAt(qs, k, t);
    assert qs[..k] == ps[..k] && qs[k + 1..] == ps[k + 1..];
  }

  lemma InsertedSums(ps: seq<Photon>, k: nat, p: Photon, t: real)
    requires k <= |ps|
    ensures Total(ps[..k] + [p] + ps[k..]) == Total(ps) + p.count
    ensures UpTo(ps[..k] + [p] + ps[k..], t) == UpTo(ps, t) + Shown(p, t)
  {
    hide Total, UpTo;
    var qs := ps[..k] + [p] + ps[k..];
    SumsAt(qs, k, t);
    assert ps == ps[..k] + ps[k..];
    SumsConcat(ps[..k], ps[k..], t);
    assert qs[..k] == ps[..k] && qs[k + 1..] == ps[k..];
  }

  lemma MergedSums(ps: seq<Photon>, p: Photon, k: nat, t: real)
    requires Sorted(ps) && LowerBound(ps, p.time, k)
    ensures Total(Merged(ps, p, k)) == Total(ps) + p.count
    ensures UpTo(Merged(ps, p, k), t) >= UpTo(ps, t) + UpTo([p], t) || p.count < 0 || !NonNegative(ps)
  {
    OnePhotonUpTo(p, t);
    hide Total, UpTo;
    if k > 0 && p.time - ps[k - 1].time < MERGE_TIME {
      UpdatedSums(ps, k - 1, AddTo(ps[k - 1], p), t);
    } else if k > 0 && k < |ps| && ps[k].time - p.time < MERGE_TIME {
      UpdatedSums(ps, k, AddTo(ps[k], p).(time := p.time), t);
    } else {
      InsertedSums(ps, k, p, t);
    }
  }

  lemma OnePhotonUpTo(p: Photon, t: real)
    ensures UpTo([p], t) == Shown(p, t)
  {
  }

  lemma MergedSorted(ps: seq<Photon>, p: Photon, k: nat)
    requires Sorted(ps) && LowerBound(ps, p.time, k)
    ensures Sorted(Merged(ps, p, k))
  {
  }

  lemma MergedTimes(ps: seq<Photon>, p: Photon, k: nat, i: nat)
    requires k <= |ps| && i < |Merged(ps, p, k)|
    ensures var q := Merged(ps, p, k)[i];
            q.time == p.time || (exists j :: 0 <= j < |ps| && ps[j].time == q.time)
    ensures NonNegative(ps) && p.count >= 0 ==> Merged(ps, p, k)[i].count >= 0
  {
  }

  lemma MergedLeads(ps: seq<Photon>, p: Photon, k: nat, i: nat)
    requires LowerBound(ps, p.time, k) && i < |ps|
    ensures HasBefore(Merged(ps, p, k), ps[i].time) && HasBefore(Merged(ps, p, k), p.time)
  {
    var qs := Merged(ps, p, k);
    var j := if |qs| > |ps| && i >= k then i + 1 else i;
    assert qs[j].time <= ps[i].time;
    MergedLead(ps, p, k);
  }

  lemma MergedLead(ps: seq<Photon>, p: Photon, k: nat)
    requires LowerBound(ps, p.time, k)
    ensures HasBefore(Merged(ps, p, k), p.time)
  {
    var qs := Merged(ps, p, k);
    var j := if k > 0 && p.time - ps[k - 1].time < MERGE_TIME then k - 1 else k;
    assert qs[j].time <= p.time;
  }

  /** Merging a photon keeps faith with all detected so far and with that one. */
  lemma MergedFaithful(ps: seq<Photon>, p: Photon, k: nat, detected: seq<Photon>)
    requires Sorted(ps) && LowerBound(ps, p.time, k) && Faithful(ps, detected)
    ensures Faithful(Merged(ps, p, k), detected + [p])
  {
    hide Merged, Total, UpTo, LowerBound, Sorted;
    LowerBoundInside(ps, p.time, k);
    var qs := Merged(ps, p, k);
    forall t
      ensures NonNegative(detected + [p]) ==> UpTo(qs, t) >= UpTo(detected + [p], t)
    {
      MergedSums(ps, p, k, t);
      SumsConcat(detected, [p], t);
      SplitNonNegative(detected, p);
    }
    MergedSums(ps, p, k, 0.0);
    SumsConcat(detected, [p], 0.0);
    OnePhoton(p);
    MergedOnlyTimes(ps, p, k, detected);
    MergedNoneLater(ps, p, k, detected);
    MergedNonNegative(ps, p, k);
    SplitNonNegative(detected, p);
  }

  lemma LowerBoundInside(ps: seq<Photon>, t: real, k: nat)
    requires LowerBound(ps, t, k)
    ensures k <= |ps|
  {
  }

  lemma OnePhoton(p: Photon)
    ensures Total([p]) == p.count
  {
  }

  lemma MergedNonNegative(ps: seq<Photon>, p: Photon, k: nat)
    requires k <= |ps|
    ensures NonNegative(ps) && p.count >= 0 ==> NonNegative(Merged(ps, p, k))
  {
  }

  lemma MergedOnlyTimes(ps: seq<Photon>, p: Photon, k: nat, detected: seq<Photon>)
    requires k <= |ps| && OnlyTimesOf(ps, detected)
    ensures OnlyTimesOf(Merged(ps, p, k), detected + [p])
  {
    var qs := Merged(ps, p, k);
    forall i | 0 <= i < |qs|
      ensures HasTime(detected + [p], qs[i].time)
    {
      hide Merged;
      MergedTimes(ps, p, k, i);
      if qs[i].time == p.time {
        assert (detected + [p])[|detected|].time == qs[i].time;
      } else {
        var j: nat :| j < |ps| && ps[j].time == qs[i].time;
        TimeKept(ps, detected, p, j);
      }
    }
  }

  lemma TimeKept(ps: seq<Photon>, detected: seq<Photon>, p: Photon, j: nat)
    requires OnlyTimesOf(ps, detected) && j < |ps|
    ensures HasTime(detected + [p], ps[j].time)
  {
    assert HasTime(detected, ps[j].time);
    var l: nat :| l < |detected| && detected[l].time == ps[j].time;
    assert (detected + [p])[l].time == ps[j].time;
  }

  lemma MergedNoneLater(ps: seq<Photon>, p: Photon, k: nat, detected: seq<Photon>)
    requires LowerBound(ps, p.time, k) && NoneLater(ps, detected)
    ensures NoneLater(Merged(ps, p, k), detected + [p])
  {
    hide Merged, LowerBound;
    LowerBoundInside(ps, p.time, k);
    var qs := Merged(ps, p, k);
    MergedLead(ps, p, k);
    forall i | 0 <= i < |detected|
      ensures HasBefore(qs, detected[i].time)
    {
      var j: nat :| j < |ps| && ps[j].time <= detected[i].time;
      MergedLeads(ps, p, k, j);
      var l: nat :| l < |qs| && qs[l].time <= ps[j].time;
    }
  }

  lemma SplitNonNegative(detected: seq<Photon>, p: Photon)
    ensures NonNegative(detected + [p]) <==> NonNegative(detected) && p.count >= 0
  {
    assert forall i :: 0 <= i < |detected| ==> (detected + [p])[i] == detected[i];
    assert (detected + [p])[|detected|] == p;
  }

  /** So does appending it. */
  lemma AppendedFaithful(ps: seq<Photon>, p: Photon, detected: seq<Photon>)
    requires Faithful(ps, detected)
    ensures Faithful(ps + [p], detected + [p])
  {
    hide Total, UpTo, OnlyTimesOf, NoneLater, NonNegative;
    var qs := ps + [p];
    forall t
      ensures UpTo(qs, t) - UpTo(ps, t) == UpTo(detected + [p], t) - UpTo(detected, t)
    {
      SumsConcat(ps, [p], t);
      SumsConcat(detected, [p], t);
    }
    SumsConcat(ps, [p], 0.0);
    SumsConcat(detected, [p], 0.0);
    SplitNonNegative(detected, p);
    SplitNonNegative(ps, p);
    AppendedOnlyTimes(ps, p, detected);
    AppendedNoneLater(ps, p, detected);
  }

  lemma AppendedOnlyTimes(ps: seq<Photon>, p: Photon, detected: seq<Photon>)
    requires OnlyTimesOf(ps, detected)
    ensures OnlyTimesOf(ps + [p], detected + [p])
  {
    var qs := ps + [p];
    forall i | 0 <= i < |qs|
      ensures HasTime(detected + [p], qs[i].time)
    {
      if i < |ps| {
        TimeKept(ps, detected, p, i);
      } else {
        assert (detected + [p])[|detected|].time == p.time;
      }
    }
  }

  lemma AppendedNoneLater(ps: seq<Photon>, p: Photon, detected: seq<Photon>)
    requires NoneLater(ps, detected)
    ensures NoneLater(ps + [p], detected + [p])
  {
    var qs := ps + [p];
    forall i | 0 <= i < |detected + [p]|
      ensures HasBefore(qs, (detected + [p])[i].time)
    {
      if i < |detected| {
        assert HasBefore(ps, detected[i].time);
        var j: nat :| j < |ps| && ps[j].time <= detected[i].time;
        assert qs[j].time <= detected[i].time;
      } else {
        assert qs[|ps|].time <= p.time;
      }
    }
  }

  // ------------------------------------------------- how much earlier it may be

  /** No count is shown more than `early` before it was detected. */
  ghost predicate NotBefore(stored: seq<Photon>, detected: seq<Photon>, early: real) {
    NonNegative(detected) ==> forall t :: UpTo(stored, t) <= UpTo(detected, t + early)
  }

  /** The photon is merged with the one behind it, which moves to the earlier time with all its count. */
  predicate MovesLater(ps: seq<Photon>, p: Photon, k: nat) {
    0 < k < |ps| && p.time - ps[k - 1].time >= MERGE_TIME && ps[k].time - p.time < MERGE_TIME
  }

  lemma {:induction false} UpToGrows(ps: seq<Photon>, s: real, t: real)
    requires NonNegative(ps) && s <= t
    ensures UpTo(ps, s) <= UpTo(ps, t)
  {
    if ps != [] {
      UpToGrows(ps[1..], s, t);
    }
  }

  /** One merge, at one time. */
  lemma MergedNotBeforeAt(ps: seq<Photon>, p: Photon, k: nat, t: real)
    requires k <= |ps| && NonNegative(ps) && p.count >= 0
    ensures UpTo(Merged(ps, p, k), t)
         <= UpTo(ps, if MovesLater(ps, p, k) then t + MERGE_TIME else t) + UpTo([p], t + MERGE_TIME)
  {
    var late := t + MERGE_TIME;
    OnePhotonUpTo(p, late);
    hide UpTo, Total;
    if k > 0 && p.time - ps[k - 1].time < MERGE_TIME {
      UpdatedSums(ps, k - 1, AddTo(ps[k - 1], p), t);
    } else if k > 0 && k < |ps| && ps[k].time - p.time < MERGE_TIME {
      UpdatedSums(ps, k, AddTo(ps[k], p).(time := p.time), t);
      SumsAt(ps, k, t);
      SumsAt(ps, k, late);
      UpToGrows(ps[..k], t, late);
      UpToGrows(ps[k + 1..], t, late);
    } else {
      InsertedSums(ps, k, p, t);
    }
  }

  /** A merge with the photon before it costs nothing more, one with the photon behind it the merge time. */
  lemma MergedNotBefore(ps: seq<Photon>, p: Photon, k: nat, detected: seq<Photon>, early: real)
    requires k <= |ps| && Faithful(ps, detected) && NotBefore(ps, detected, early) && early >= MERGE_TIME
    ensures NotBefore(Merged(ps, p, k), detected + [p], if MovesLater(ps, p, k) then early + MERGE_TIME else early)
  {
    SplitNonNegative(detected, p);
    hide Merged, UpTo, MovesLater, NonNegative;
    var qs := Merged(ps, p, k);
    var more := if MovesLater(ps, p, k) then early + MERGE_TIME else early;
    if NonNegative(detected + [p]) {
      OneNonNegative(p);
      forall t
        ensures UpTo(qs, t) <= UpTo(detected + [p], t + more)
      {
        MergedNotBeforeAt(ps, p, k, t);
        var u := if MovesLater(ps, p, k) then t + MERGE_TIME else t;
        assert UpTo(ps, u) <= UpTo(detected, u + early) && u + early == t + more;
        UpToGrows([p], t + MERGE_TIME, t + more);
        SumsConcat(detected, [p], t + more);
      }
    }
  }

  lemma OneNonNegative(p: Photon)
    ensures NonNegative([p]) <==> p.count >= 0
  {
    assert [p][0] == p;
  }

  lemma AppendedNotBefore(ps: seq<Photon>, p: Photon, detected: seq<Photon>, early: real)
    requires NotBefore(ps, detected, early) && early >= 0.0
    ensures NotBefore(ps + [p], detected + [p], early)
  {
    SplitNonNegative(detected, p);
    hide UpTo, NonNegative;
    if NonNegative(detected + [p]) {
      OneNonNegative(p);
      forall t
        ensures UpTo(ps + [p], t) <= UpTo(detected + [p], t + early)
      {
        SumsConcat(ps, [p], t);
        SumsConcat(detected, [p], t + early);
        UpToGrows([p], t, t + early);
      }
    }
  }

  lemma NotBeforePermuted(ps: seq<Photon>, qs: seq<Photon>, detected: seq<Photon>, early: real)
    requires NotBefore(ps, detected, early) && multiset(ps) == multiset(qs)
    ensures NotBefore(qs, detected, early)
  {
    forall t
      ensures UpTo(ps, t) == UpTo(qs, t)
    {
      SumsOfMultiset(ps, qs, t);
    }
  }

  /** The photons up to the one a photon is merged with are no more than were detected by `early` behind it. */
  ghost predicate RoomToMove(ps: seq<Photon>, p: Photon, k: nat, detected: seq<Photon>, early: real)
    requires k <= |ps|
  {
    MovesLater(ps, p, k) ==> Total(ps[..k + 1]) <= UpTo(detected, p.time + early)
  }

  lemma {:induction false} UpToAll(ps: seq<Photon>, t: real)
    requires forall i :: 0 <= i < |ps| ==> ps[i].time <= t
    ensures UpTo(ps, t) == Total(ps)
  {
    if ps != [] {
      UpToAll(ps[1..], t);
    }
  }

  lemma {:induction false} UpToNone(ps: seq<Photon>, t: real)
    requires forall i :: 0 <= i < |ps| ==> ps[i].time > t
    ensures UpTo(ps, t) == 0
  {
    if ps != [] {
      UpToNone(ps[1..], t);
    }
  }

  /** What is shown when a photon has been merged with the one behind it: all up to that one, from then on. */
  lemma MovedUpTo(ps: seq<Photon>, p: Photon, k: nat, t: real)
    requires Sorted(ps) && LowerBound(ps, p.time, k) && MovesLater(ps, p, k)
    ensures UpTo(Merged(ps, p, k), t) ==
              if p.time <= t < ps[k].time then Total(ps[..k + 1]) + p.count else UpTo(ps, t) + Shown(p, t)
  {
    hide Total, UpTo, Sorted;
    UpdatedSums(ps, k, AddTo(ps[k], p).(time := p.time), t);
    if p.time <= t < ps[k].time {
      BetweenUpTo(ps, p.time, k, t);
    }
  }

  lemma BetweenUpTo(ps: seq<Photon>, s: real, k: nat, t: real)
    requires Sorted(ps) && LowerBound(ps, s, k) && k < |ps| && s <= t < ps[k].time
    ensures UpTo(ps, t) == Total(ps[..k]) && Total(ps[..k + 1]) == Total(ps[..k]) + ps[k].count
  {
    assert ps == ps[..k] + ps[k..];
    SumsConcat(ps[..k], ps[k..], t);
    UpToAll(ps[..k], t);
    UpToNone(ps[k..], t);
    assert ps[..k + 1] == ps[..k] + [ps[k]];
    SumsConcat(ps[..k], [ps[k]], t);
    OnePhoton(ps[k]);
  }

  /** With no room, too much is shown at the time of the photon. */
  lemma NoRoomShows(ps: seq<Photon>, p: Photon, k: nat, detected: seq<Photon>, early: real)
    requires Sorted(ps) && LowerBound(ps, p.time, k) && NotBefore(ps, detected, early) && early >= 0.0
    requires NonNegative(detected) && NonNegative(ps) && !RoomToMove(ps, p, k, detected, early)
    ensures UpTo(Merged(ps, p, k), p.time) > UpTo(detected + [p], p.time + early)
  {
    hide Merged, Total, UpTo, LowerBound, NonNegative, Sorted;
    var t, u := p.time, p.time + early;
    MovedUpTo(ps, p, k, t);
    SumsConcat(detected, [p], u);
    OnePhotonUpTo(p, u);
    if ps[k].time <= t {
      assert UpTo(ps, t) <= UpTo(detected, u);
      FrontUpTo(ps, k, t);
    }
  }

  lemma FrontUpTo(ps: seq<Photon>, k: nat, t: real)
    requires Sorted(ps) && NonNegative(ps) && k < |ps| && ps[k].time <= t
    ensures Total(ps[..k + 1]) <= UpTo(ps, t)
  {
    assert ps == ps[..k + 1] + ps[k + 1..];
    SumsConcat(ps[..k + 1], ps[k + 1..], t);
    UpToAll(ps[..k + 1], t);
    UpToPositive(ps[k + 1..], t);
  }

  lemma {:induction false} UpToPositive(ps: seq<Photon>, t: real)
    requires NonNegative(ps)
    ensures UpTo(ps, t) >= 0
  {
    if ps != [] {
      UpToPositive(ps[1..], t);
    }
  }

  lemma RoomShows(ps: seq<Photon>, p: Photon, k: nat, detected: seq<Photon>, early: real, t: real)
    requires Sorted(ps) && LowerBound(ps, p.time, k) && NotBefore(ps, detected, early) && early >= MERGE_TIME
    requires NonNegative(detected + [p]) && NonNegative(ps) && RoomToMove(ps, p, k, detected, early)
    ensures UpTo(Merged(ps, p, k), t) <= UpTo(detected + [p], t + early)
  {
    SplitNonNegative(detected, p);
    OneNonNegative(p);
    LowerBoundInside(ps, p.time, k);
    hide Merged, Total, UpTo, LowerBound, NonNegative, Sorted;
    SumsConcat(detected, [p], t + early);
    UpToGrows([p], t + MERGE_TIME, t + early);
    assert UpTo(ps, t) <= UpTo(detected, t + early);
    if MovesLater(ps, p, k) {
      MovedUpTo(ps, p, k, t);
      OnePhotonUpTo(p, t + early);
      if p.time <= t {
        UpToGrows(detected, p.time + early, t + early);
      } else {
        OnePhotonUpTo(p, t);
        UpToPositive([p], t + early);
      }
    } else {
      MergedNotBeforeAt(ps, p, k, t);
    }
  }

  /** Exactly when a photon keeps every count from being shown more than `early` before it was detected. */
  lemma MergedStaysNear(ps: seq<Photon>, p: Photon, k: nat, detected: seq<Photon>, early: real)
    requires Sorted(ps) && LowerBound(ps, p.time, k) && Faithful(ps, detected) && early >= MERGE_TIME
    requires NotBefore(ps, detected, early) && NonNegative(detected + [p])
    ensures NotBefore(Merged(ps, p, k), detected + [p], early) <==> RoomToMove(ps, p, k, detected, early)
  {
    hide Merged, UpTo, LowerBound, NonNegative, Sorted, RoomToMove, Faithful, NotBefore;
    SplitNonNegative(detected, p);
    LowerBoundInside(ps, p.time, k);
    FaithfulNonNegative(ps, detected);
    if RoomToMove(ps, p, k, detected, early) {
      forall t
        ensures UpTo(Merged(ps, p, k), t) <= UpTo(detected + [p], t + early)
      {
        RoomShows(ps, p, k, detected, early, t);
      }
      ShownLater(Merged(ps, p, k), detected + [p], early);
    } else {
      NoRoomShows(ps, p, k, detected, early);
      ShownEarly(Merged(ps, p, k), detected + [p], early, p.time);
    }
  }

  lemma FaithfulNonNegative(ps: seq<Photon>, detected: seq<Photon>)
    requires Faithful(ps, detected) && NonNegative(detected)
    ensures NonNegative(ps)
  {
  }

  lemma ShownLater(stored: seq<Photon>, detected: seq<Photon>, early: real)
    requires forall t :: UpTo(stored, t) <= UpTo(detected, t + early)
    ensures NotBefore(stored, detected, early)
  {
  }

  lemma ShownEarly(stored: seq<Photon>, detected: seq<Photon>, early: real, t: real)
    requires NonNegative(detected) && UpTo(stored, t) > UpTo(detected, t + early)
    ensures !NotBefore(stored, detected, early)
  {
  }

  /** What a number of merges with photons behind may cost. */
  function Early(moves: nat): real {
    (moves as real + 1.0) * MERGE_TIME
  }

  lemma EarlyGrows(moves: nat)
    ensures Early(moves + 1) == Early(moves) + MERGE_TIME
  {
  }

  /** n more photons, each half a merge time before the one before, on top of z and q. */
  function Chained(z: Photon, q: Photon, n: nat): (ps: seq<Photon>)
    ensures |ps| >= 2
  {
    if n == 0 then [z, q]
    else
      var ps := Chained(z, q, n - 1);
      Merged(ps, ChainedPhoton(q, n), 1)
  }

  function ChainedPhoton(q: Photon, n: nat): Photon {
    Photon(q.pmtid, q.time - 0.5 * n as real, 1)
  }

  /** The photons detected for it. */
  function ChainDetected(z: Photon, q: Photon, n: nat): seq<Photon> {
    if n == 0 then [z, q] else ChainDetected(z, q, n - 1) + [ChainedPhoton(q, n)]
  }

  lemma {:induction false} ChainList(z: Photon, q: Photon, n: nat)
    requires q.time - 0.5 * n as real - z.time >= MERGE_TIME
    ensures Chained(z, q, n) == [z, q.(time := q.time - 0.5 * n as real, count := q.count + n)]
    ensures n > 0 ==> LowerBound(Chained(z, q, n - 1), ChainedPhoton(q, n).time, 1)
                      && MovesLater(Chained(z, q, n - 1), ChainedPhoton(q, n), 1)
  {
    if n > 0 {
      ChainList(z, q, n - 1);
    }
  }

  lemma TwoUpTo(z: Photon, q: Photon, t: real)
    ensures UpTo([z, q], t) == Shown(z, t) + Shown(q, t)
  {
    assert [z, q][1..] == [q] && [q][1..] == [];
    OnePhotonUpTo(q, t);
  }

  /** All that was detected has been by the time of q, and all but q before. */
  lemma {:induction false} ChainUpTo(z: Photon, q: Photon, n: nat, t: real)
    requires z.time <= q.time
    ensures t >= q.time ==> UpTo(ChainDetected(z, q, n), t) == z.count + q.count + n
    ensures t < q.time && z.count >= 0 ==> Shown(z, t) <= UpTo(ChainDetected(z, q, n), t) <= z.count + n
    ensures q.count >= 0 && z.count >= 0 ==> NonNegative(ChainDetected(z, q, n))
  {
    if n == 0 {
      TwoUpTo(z, q, t);
    } else {
      hide UpTo, NonNegative;
      ChainUpTo(z, q, n - 1, t);
      var p := ChainedPhoton(q, n);
      SumsConcat(ChainDetected(z, q, n - 1), [p], t);
      OnePhotonUpTo(p, t);
      SplitNonNegative(ChainDetected(z, q, n - 1), p);
    }
  }

  /**
   Merges with the photon behind add up: after n of them, each half a merge time
   before the last, q is shown n half merge times before it was detected.
   */
  lemma MovesAddUp(z: Photon, q: Photon, n: nat, early: real)
    requires q.time - 0.5 * n as real - z.time >= MERGE_TIME && z.count >= 0 && q.count > 0 && early >= 0.0
    ensures NotBefore(Chained(z, q, n), ChainDetected(z, q, n), early) <==> early >= 0.5 * n as real
    ensures n > 0 ==> Chained(z, q, n) == Merged(Chained(z, q, n - 1), ChainedPhoton(q, n), 1)
                      && LowerBound(Chained(z, q, n - 1), ChainedPhoton(q, n).time, 1)
                      && ChainDetected(z, q, n) == ChainDetected(z, q, n - 1) + [ChainedPhoton(q, n)]
  {
    hide UpTo, NonNegative;
    ChainList(z, q, n);
    var moved := q.(time := q.time - 0.5 * n as real, count := q.count + n);
    ChainUpTo(z, q, n, q.time);
    if early >= 0.5 * n as real {
      forall t
        ensures UpTo([z, moved], t) <= UpTo(ChainDetected(z, q, n), t + early)
      {
        TwoUpTo(z, moved, t);
        ChainUpTo(z, q, n, t + early);
      }
    } else {
      TwoUpTo(z, moved, moved.time);
      ChainUpTo(z, q, n, moved.time + early);
      assert UpTo([z, moved], moved.time) > UpTo(ChainDetected(z, q, n), moved.time + early);
    }
  }

  /** Times 0 and 10, then 9.5, 9 and 8.5: the photon of time 10 is shown at 8.5. */
  lemma ThreeMovesShowEarly()
    ensures var z, q := Photon(0, 0.0, 1), Photon(0, 10.0, 1);
            Chained(z, q, 3) == [z, Photon(0, 8.5, 4)]
            && !NotBefore(Chained(z, q, 3), ChainDetected(z, q, 3), MERGE_TIME)
  {
    var z, q := Photon(0, 0.0, 1), Photon(0, 10.0, 1);
    ChainList(z, q, 3);
    MovesAddUp(z, q, 3, MERGE_TIME);
  }

  // ------------------------------------------------------------- the algorithms

  lemma InsertedSorted(qs: seq<Photon>, p: Photon, k: nat)
    requires Sorted(qs) && LowerBound(qs, p.time, k)
    ensures Sorted(qs[..k] + [p] + qs[k..])
  {
  }

  lemma InsertedMultiset(qs: seq<Photon>, p: Photon, k: nat)
    requires k <= |qs|
    ensures multiset(qs[..k] + [p] + qs[k..]) == multiset(qs) + multiset{p}
  {
    assert qs == qs[..k] + qs[k..];
  }

  /** What std::sort gives for photons. */
  method SortByTime(ps: seq<Photon>) returns (qs: seq<Photon>)
    ensures Sorted(qs) && multiset(qs) == multiset(ps)
  {
    qs := [];
    var i := 0;
    while i < |ps|
      invariant 0 <= i <= |ps| && Sorted(qs) && multiset(qs) == multiset(ps[..i])
    {
      hide Sorted, LowerBound;
      var k := FindLowerBound(qs, ps[i].time);
      LowerBoundInside(qs, ps[i].time, k);
      InsertedSorted(qs, ps[i], k);
      InsertedMultiset(qs, ps[i], k);
      assert ps[..i + 1] == ps[..i] + [ps[i]];
      qs := qs[..k] + [ps[i]] + qs[k..];
      i := i + 1;
    }
    assert ps[..i] == ps;
  }

  /** What std::lower_bound gives. */
  method FindLowerBound(ps: seq<Photon>, t: real) returns (k: nat)
    requires Sorted(ps)
    ensures LowerBound(ps, t, k)
  {
    k := 0;
    while k < |ps| && ps[k].time < t
      invariant k <= |ps| && forall i :: 0 <= i < k ==> ps[i].time < t
    {
      k := k + 1;
    }
  }

  class HitPMT {
    const id: int
    const threshold: nat
    var photons: seq<Photon>
    ghost var detected: seq<Photon>
    /** How many photons were merged with the one behind them. */
    ghost var moves: nat

    ghost predicate Valid()
      reads this
    {
      && Faithful(photons, detected)
      && NotBefore(photons, detected, Early(moves))
      && |photons| <= |detected|
      && (detected != [] ==> photons != [])
    }

    constructor (id: int, threshold: nat)
      ensures this.id == id && this.threshold == threshold && Valid() && photons == [] && detected == []
    {
      this.id, this.threshold, photons, detected, moves := id, threshold, [], [], 0;
      new;
      assert forall t :: UpTo([], t) == 0;
    }

    method Clear()
      modifies this
      ensures Valid() && photons == [] && detected == []
    {
      photons, detected, moves := [], [], 0;
      assert forall t :: UpTo([], t) == 0;
    }

    method SortTimeAscending()
      requires Valid()
      modifies this`photons
      ensures Valid() && Sorted(photons) && multiset(photons) == multiset(old(photons)) && |photons| == |old(photons)|
    {
      hide Faithful, NotBefore;
      var sorted := SortByTime(photons);
      FaithfulPermuted(photons, sorted, detected);
      NotBeforePermuted(photons, sorted, detected, Early(moves));
      assert |multiset(photons)| == |multiset(sorted)|;
      photons := sorted;
    }

    method DetectPhoton(p: Photon)
      requires Valid()
      modifies this
      ensures Valid() && detected == old(detected) + [p]
      ensures old(moves) <= moves <= old(moves) + 1
      ensures moves > old(moves) ==> |photons| == |old(photons)| >= threshold
      ensures |old(photons)| < threshold ==> photons == old(photons) + [p]
      ensures |old(photons)| >= threshold ==> Sorted(photons) && MergedFrom(old(photons), p, photons)
      ensures NonNegative(detected) && old(NotBefore(photons, detected, MERGE_TIME)) ==>
                (NotBefore(photons, detected, MERGE_TIME)
                 <==> |old(photons)| < threshold || MergedNear(old(photons), p, photons, old(detected)))
    {
      hide Faithful, Sorted, LowerBound, NotBefore, NonNegative, MergedNear;
      ghost var before, seen := photons, detected;
      if |photons| < threshold {
        AppendedFaithful(photons, p, detected);
        AppendedNotBefore(photons, p, detected, Early(moves));
        if NotBefore(photons, detected, MERGE_TIME) {
          AppendedNotBefore(photons, p, detected, MERGE_TIME);
        }
        photons := photons + [p];
      } else {
        SortTimeAscending();
        var sorted := photons;
        var it2 := FindLowerBound(photons, p.time);
        LowerBoundInside(photons, p.time, it2);
        MergedFaithful(photons, p, it2, detected);
        MergedNotBefore(photons, p, it2, detected, Early(moves));
        MergedSorted(photons, p, it2);
        if it2 == 0 {
          photons := photons[..it2] + [p] + photons[it2..];
        } else {
          var it1 := it2 - 1;
          if p.time - photons[it1].time < MERGE_TIME {
            photons := photons[it1 := AddTo(photons[it1], p)];
          } else if it2 != |photons| && photons[it2].time - p.time < MERGE_TIME {
            photons := photons[it2 := AddTo(photons[it2], p)];
            photons := photons[it2 := photons[it2].(time := p.time)];
          } else {
            photons := photons[..it2] + [p] + photons[it2..];
          }
        }
        ghost var later := MovesLater(sorted, p, it2);
        assert photons == Merged(sorted, p, it2) && 0 < |photons| <= |sorted| + 1;
        assert |sorted| == |before| && (later ==> |photons| == |sorted|);
        assert MergedFrom(before, p, photons);
        hide Merged, MovesLater, Early, MergedFrom;
        EarlyGrows(moves);
        moves := if later then moves + 1 else moves;
        assert NotBefore(photons, seen + [p], Early(moves));
        if NonNegative(seen + [p]) && NotBefore(before, seen, MERGE_TIME) {
          DetectedNear(before, p, photons, seen);
        }
      }
      detected := detected + [p];
    }
  }

  /** However they were sorted, there was room for the photon to move the one behind it. */
  ghost predicate MergedNear(before: seq<Photon>, p: Photon, after: seq<Photon>, detected: seq<Photon>) {
    forall sorted: seq<Photon>, k: nat ::
      multiset(sorted) == multiset(before) && Sorted(sorted) && LowerBound(sorted, p.time, k)
          && after == Merged(sorted, p, k)
      ==> RoomToMove(sorted, p, k, detected, MERGE_TIME)
  }

  lemma DetectedNear(before: seq<Photon>, p: Photon, after: seq<Photon>, detected: seq<Photon>)
    requires Faithful(before, detected) && NotBefore(before, detected, MERGE_TIME) && NonNegative(detected + [p])
    requires MergedFrom(before, p, after)
    ensures NotBefore(after, detected + [p], MERGE_TIME) <==> MergedNear(before, p, after, detected)
  {
    hide Faithful, NotBefore, Sorted, LowerBound, Merged, NonNegative, RoomToMove;
    forall sorted: seq<Photon>, k: nat | multiset(sorted) == multiset(before) && Sorted(sorted)
        && LowerBound(sorted, p.time, k) && (LowerBoundInside(sorted, p.time, k); after == Merged(sorted, p, k))
      ensures k <= |sorted|
      ensures NotBefore(after, detected + [p], MERGE_TIME) <==> RoomToMove(sorted, p, k, detected, MERGE_TIME)
    {
      LowerBoundInside(sorted, p.time, k);
      FaithfulPermuted(before, sorted, detected);
      NotBeforePermuted(before, sorted, detected, MERGE_TIME);
      MergedStaysNear(sorted, p, k, detected, MERGE_TIME);
    }
  }

  /** The stored photons, sorted, with p merged in. */
  ghost predicate MergedFrom(before: seq<Photon>, p: Photon, after: seq<Photon>) {
    exists sorted: seq<Photon>, k: nat ::
      multiset(sorted) == multiset(before) && Sorted(sorted) && LowerBound(sorted, p.time, k)
          && after == Merged(sorted, p, k)
  }

  // --------------------------------------------------------------- the collection

  /** The photons of one PMT. */
  function Of(ps: seq<Photon>, id: int): seq<Photon> {
    if ps == [] then []
    else (if ps[0].pmtid == id then [ps[0]] else []) + Of(ps[1..], id)
  }

  lemma {:induction false} OfAppend(ps: seq<Photon>, p: Photon, id: int)
    ensures Of(ps + [p], id) == Of(ps, id) + (if p.pmtid == id then [p] else [])
  {
    if ps == [] {
      assert [p][1..] == [];
    } else {
      OfAppend(ps[1..], p, id);
      assert (ps + [p])[1..] == ps[1..] + [p];
    }
  }

  lemma {:induction false} OfNone(ps: seq<Photon>, id: int)
    ensures Of(ps, id) == [] <==> forall i :: 0 <= i < |ps| ==> ps[i].pmtid != id
  {
    if ps != [] {
      OfNone(ps[1..], id);
      assert forall i :: 1 <= i < |ps| ==> ps[i] == ps[1..][i - 1];
    }
  }

  function SumOf(ids: seq<int>, ps: seq<Photon>): int {
    if ids == [] then 0 else Total(Of(ps, ids[0])) + SumOf(ids[1..], ps)
  }

  ghost predicate AllDifferent(ids: seq<int>) {
    forall i, j :: 0 <= i < j < |ids| ==> ids[i] != ids[j]
  }

  lemma {:induction false} SumOfStep(ids: seq<int>, ps: seq<Photon>)
    requires ps != [] && AllDifferent(ids)
    ensures SumOf(ids, ps) == SumOf(ids, ps[1..]) + (if ps[0].pmtid in ids then ps[0].count else 0)
  {
    if ids != [] {
      SumOfStep(ids[1..], ps);
      SumsConcat(if ps[0].pmtid == ids[0] then [ps[0]] else [], Of(ps[1..], ids[0]), 0.0);
      OnePhoton(ps[0]);
    }
  }

  /** The photons of all PMTs together are all photons. */
  lemma {:induction false} SumOfAll(ids: seq<int>, ps: seq<Photon>)
    requires AllDifferent(ids) && forall i :: 0 <= i < |ps| ==> ps[i].pmtid in ids
    ensures SumOf(ids, ps) == Total(ps)
  {
    if ps == [] {
      SumOfNothing(ids);
    } else {
      SumOfStep(ids, ps);
      SumOfAll(ids, ps[1..]);
    }
  }

  lemma {:induction false} SumOfNothing(ids: seq<int>)
    ensures SumOf(ids, []) == 0
  {
    if ids != [] {
      SumOfNothing(ids[1..]);
    }
  }

  /** The map names the one PMT of the list with an id. */
  ghost predicate Indexed(list: seq<HitPMT>, hitmap: map<int, HitPMT>) {
    && (forall i, j :: 0 <= i < j < |list| ==> list[i].id != list[j].id)
    && (forall pmt :: pmt in list ==> pmt.id in hitmap && hitmap[pmt.id] == pmt)
    && (forall id :: id in hitmap ==> hitmap[id] in list && hitmap[id].id == id)
  }

  lemma IndexedMore(list: seq<HitPMT>, hitmap: map<int, HitPMT>, pmt: HitPMT)
    requires Indexed(list, hitmap) && pmt.id !in hitmap
    ensures Indexed(list + [pmt], hitmap[pmt.id := pmt])
  {
  }

  class HitPMTCollection {
    const threshold: nat
    var fPMT: seq<HitPMT>
    var fHitmap: map<int, HitPMT>
    ghost var detected: seq<Photon>

    /**
     A PMT is there for exactly the ids of detected photons, and has detected
     those photons.
     */
    ghost predicate Valid()
      reads this, fPMT
    {
      && Indexed(fPMT, fHitmap)
      && (forall pmt :: pmt in fPMT ==> Good(pmt))
      && (forall i :: 0 <= i < |detected| ==> detected[i].pmtid in fHitmap)
    }

    ghost predicate Good(pmt: HitPMT)
      reads this`detected, pmt
    {
      pmt.Valid() && pmt.threshold == threshold && pmt.detected != [] && pmt.detected == Of(detected, pmt.id)
    }

    constructor (threshold: nat)
      ensures Valid() && this.threshold == threshold && detected == [] && fPMT == []
    {
      this.threshold, fPMT, fHitmap, detected := threshold, [], map[], [];
    }

    /** The PMT with an id, which there is if a photon was detected there. */
    method GetPMTByID(id: int) returns (r: Option<HitPMT>)
      requires Valid()
      ensures r.Some? <==> exists i :: 0 <= i < |detected| && detected[i].pmtid == id
      ensures r.Some? ==> r.value in fPMT && r.value.id == id && r.value.detected == Of(detected, id)
      ensures r.None? ==> id !in fHitmap
    {
      if id in fHitmap {
        OfNone(detected, id);
        r := Some(fHitmap[id]);
        assert Good(fHitmap[id]);
      } else {
        r := None;
      }
    }

    method DetectPhoton(p: Photon)
      requires Valid()
      modifies this, fPMT
      ensures Valid() && detected == old(detected) + [p]
      ensures forall x :: x in fPMT ==> x in old(fPMT) || fresh(x)
    {
      hide Of, HitPMT.Valid, Indexed, MergedFrom, Sorted;
      var hitpmt := GetPMTByID(p.pmtid);
      IndexFacts(fPMT, fHitmap);
      OfNone(detected, p.pmtid);
      OfAppended(p);
      ghost var before := detected;
      if hitpmt.Some? {
        assert Good(hitpmt.value);
        detected := detected + [p];
        hitpmt.value.DetectPhoton(p);
      } else {
        var pmt := new HitPMT(p.pmtid, threshold);
        IndexedMore(fPMT, fHitmap, pmt);
        fPMT := fPMT + [pmt];
        pmt.DetectPhoton(p);
        fHitmap := fHitmap[p.pmtid := pmt];
        detected := detected + [p];
      }
    }

    method Clear()
      requires Valid()
      modifies this, fPMT
      ensures Valid() && fPMT == [] && fHitmap == map[] && detected == []
    {
      var i := 0;
      while i < |fPMT|
        invariant fPMT == old(fPMT)
      {
        fPMT[i].Clear();
        i := i + 1;
      }
      fPMT, fHitmap, detected := [], map[], [];
    }

    /** The photons of each PMT in order, and the PMTs in the order of their first ones. */
    method SortTimeAscending()
      requires Valid()
      modifies this, fPMT
      ensures Valid() && detected == old(detected) && fHitmap == old(fHitmap)
      ensures multiset(fPMT) == multiset(old(fPMT))
      ensures forall pmt :: pmt in fPMT ==> Sorted(pmt.photons)
      ensures forall pmt :: pmt in fPMT ==> multiset(pmt.photons) == multiset(old(pmt.photons))
      ensures InOrder(fPMT)
    {
      hide Of, Indexed, MergedFrom, Sorted, HitPMT.Valid, InOrder, NotLater, Faithful, NotBefore, Good;
      IndexFacts(fPMT, fHitmap);
      var i := 0;
      while i < |fPMT|
        invariant 0 <= i <= |fPMT| && fPMT == old(fPMT) && fHitmap == old(fHitmap) && detected == old(detected)
        invariant forall pmt :: pmt in fPMT ==> Good(pmt)
        invariant forall k :: 0 <= k < i ==> Sorted(fPMT[k].photons)
        invariant forall pmt :: pmt in fPMT ==> multiset(pmt.photons) == multiset(old(pmt.photons))
      {
        GoodFacts(fPMT[i]);
        fPMT[i].SortTimeAscending();
        GoodAgain(fPMT[i]);
        i := i + 1;
      }
      forall pmt | pmt in fPMT
        ensures pmt.photons != []
      {
        GoodFacts(pmt);
      }
      var sorted := SortPMTs(fPMT);
      IndexedPermuted(fPMT, sorted, fHitmap);
      SameMembers(fPMT, sorted);
      fPMT := sorted;
    }

    lemma GoodFacts(pmt: HitPMT)
      requires Good(pmt)
      ensures pmt.Valid() && pmt.threshold == threshold && pmt.detected != [] && pmt.detected == Of(detected, pmt.id)
      ensures pmt.photons != []
    {
    }

    lemma GoodAgain(pmt: HitPMT)
      requires pmt.Valid() && pmt.threshold == threshold && pmt.detected != [] && pmt.detected == Of(detected, pmt.id)
      ensures Good(pmt)
    {
    }

    /** No photon is lost or counted twice. */
    lemma Conserved()
      requires Valid()
      ensures StoredTotal(fPMT) == Total(detected)
    {
      var list := fPMT;
      var ids := seq(|list|, i requires 0 <= i < |list| => list[i].id);
      assert forall i :: 0 <= i < |list| ==> list[i] in fPMT && Good(list[i]);
      StoredIsDetected(list, ids, detected);
      SumOfAll(ids, detected) by {
        forall i | 0 <= i < |detected|
          ensures detected[i].pmtid in ids
        {
          var pmt := fHitmap[detected[i].pmtid];
          var k: nat :| k < |list| && list[k] == pmt;
          assert ids[k] == detected[i].pmtid;
        }
      }
    }

    lemma OfAppended(p: Photon)
      ensures forall id :: Of(detected + [p], id) == Of(detected, id) + (if p.pmtid == id then [p] else [])
    {
      forall id
        ensures Of(detected + [p], id) == Of(detected, id) + (if p.pmtid == id then [p] else [])
      {
        OfAppend(detected, p, id);
      }
    }
  }

  ghost function StoredTotal(list: seq<HitPMT>): int
    reads list
  {
    if list == [] then 0 else Total(list[0].photons) + StoredTotal(list[1..])
  }

  lemma {:induction false} StoredIsDetected(list: seq<HitPMT>, ids: seq<int>, detected: seq<Photon>)
    requires |ids| == |list|
    requires forall i :: 0 <= i < |list| ==>
               ids[i] == list[i].id && list[i].Valid() && list[i].detected == Of(detected, ids[i])
    ensures StoredTotal(list) == SumOf(ids, detected)
  {
    if list != [] {
      StoredIsDetected(list[1..], ids[1..], detected);
    }
  }

  /** Of two PMTs with photons, in sorted order, a does not come later. */
  ghost predicate NotLater(a: HitPMT, b: HitPMT)
    reads a, b
  {
    a.photons != [] && b.photons != [] && a.photons[0].time <= b.photons[0].time
  }

  ghost predicate InOrder(list: seq<HitPMT>)
    reads list
  {
    forall i, j :: 0 <= i < j < |list| ==> NotLater(list[i], list[j])
  }

  lemma InsertInOrder(r: seq<HitPMT>, x: HitPMT, k: nat)
    requires InOrder(r) && k <= |r|
    requires forall i :: 0 <= i < k ==> NotLater(r[i], x)
    requires forall i :: k <= i < |r| ==> NotLater(x, r[i])
    ensures InOrder(r[..k] + [x] + r[k..])
    ensures multiset(r[..k] + [x] + r[k..]) == multiset(r) + multiset{x}
  {
    hide NotLater;
    assert r == r[..k] + r[k..];
  }

  /** What std::sort gives for PMTs, all of which have photons. */
  method SortPMTs(list: seq<HitPMT>) returns (r: seq<HitPMT>)
    requires forall pmt :: pmt in list ==> pmt.photons != []
    ensures multiset(r) == multiset(list) && InOrder(r)
  {
    hide InOrder;
    r := [];
    assert InOrder([]) by { NoneInOrder(); }
    var i := 0;
    while i < |list|
      invariant 0 <= i <= |list| && multiset(r) == multiset(list[..i]) && InOrder(r)
      invariant forall pmt :: pmt in r ==> pmt.photons != []
    {
      r := InsertPMT(r, list[i]);
      assert list[..i + 1] == list[..i] + [list[i]];
      i := i + 1;
    }
    assert list[..i] == list;
  }

  method InsertPMT(list: seq<HitPMT>, x: HitPMT) returns (r: seq<HitPMT>)
    requires (forall pmt :: pmt in list ==> pmt.photons != []) && x.photons != [] && InOrder(list)
    ensures InOrder(r) && multiset(r) == multiset(list) + multiset{x}
    ensures forall pmt :: pmt in r ==> pmt.photons != []
  {
    hide InOrder;
    var k := 0;
    while k < |list| && list[k].photons[0].time < x.photons[0].time
      invariant k <= |list| && forall j :: 0 <= j < k ==> NotLater(list[j], x)
    {
      k := k + 1;
    }
    BehindInOrder(list, x, k);
    InsertInOrder(list, x, k);
    r := list[..k] + [x] + list[k..];
  }

  lemma NoneInOrder()
    ensures InOrder([])
  {
  }

  lemma BehindInOrder(r: seq<HitPMT>, x: HitPMT, k: nat)
    requires InOrder(r) && (forall pmt :: pmt in r ==> pmt.photons != []) && x.photons != []
    requires k < |r| ==> NotLater(x, r[k])
    ensures forall i :: k <= i < |r| ==> NotLater(x, r[i])
  {
  }

  lemma SameMembers(list: seq<HitPMT>, r: seq<HitPMT>)
    requires multiset(list) == multiset(r)
    ensures forall pmt :: pmt in list <==> pmt in r
  {
    forall pmt
      ensures pmt in list <==> pmt in r
    {
      assert pmt in list <==> pmt in multiset(list);
      assert pmt in r <==> pmt in multiset(r);
    }
  }

  lemma IndexedPermuted(list: seq<HitPMT>, r: seq<HitPMT>, hitmap: map<int, HitPMT>)
    requires Indexed(list, hitmap) && multiset(list) == multiset(r)
    ensures Indexed(r, hitmap)
  {
    SameMembers(list, r);
    forall i, j | 0 <= i < j < |r|
      ensures r[i].id != r[j].id
    {
      if r[i].id == r[j].id {
        IndexFacts(list, hitmap);
        TwiceIn(r, i, j);
        OnceIn(list, r[i]);
      }
    }
  }

  lemma TwiceIn(r: seq<HitPMT>, i: nat, j: nat)
    requires i < j < |r| && r[i] == r[j]
    ensures multiset(r)[r[i]] >= 2
  {
    assert r == (r[..i] + [r[i]]) + (r[i + 1..j] + [r[j]] + r[j + 1..]);
  }

  lemma {:induction false} OnceIn(list: seq<HitPMT>, x: HitPMT)
    requires forall i, j :: 0 <= i < j < |list| ==> list[i].id != list[j].id
    ensures multiset(list)[x] <= 1
  {
    if list != [] {
      OnceIn(list[1..], x);
      assert list == [list[0]] + list[1..];
      assert forall k :: 0 <= k < |list[1..]| ==> list[1..][k].id != list[0].id;
      assert x == list[0] ==> x !in list[1..];
    }
  }

  lemma IndexFacts(list: seq<HitPMT>, hitmap: map<int, HitPMT>)
    requires Indexed(list, hitmap)
    ensures forall pmt :: pmt in list ==> pmt.id in hitmap && hitmap[pmt.id] == pmt
    ensures forall x, y :: x in list && y in list && x.id == y.id ==> x == y
  {
  }

  // ------------------------------------------------------- what it amounts to

  /** The last photon before t, if there is one. */
  predicate LastBefore(ps: seq<Photon>, t: real, i: nat) {
    i < |ps| && ps[i].time < t && forall j :: i < j < |ps| ==> ps[j].time >= t
  }

  /** The first photon at or behind t, if there is one. */
  predicate FirstFrom(ps: seq<Photon>, t: real, i: nat) {
    i < |ps| && ps[i].time >= t && forall j :: 0 <= j < i ==> ps[j].time < t
  }

  /** A photon is counted with the last one before it if that is less than 1 ns earlier. */
  lemma JoinsLast(ps: seq<Photon>, p: Photon, k: nat, i: nat)
    requires LowerBound(ps, p.time, k) && LastBefore(ps, p.time, i) && p.time - ps[i].time < 1.0
    ensures Merged(ps, p, k) == ps[i := Photon(ps[i].pmtid, ps[i].time, ps[i].count + p.count)]
  {
    assert i < k && ps[k - 1].time < p.time;
  }

  /** Else, unless it is the earliest, with the first one behind it if that is less than 1 ns later, which moves. */
  lemma JoinsNext(ps: seq<Photon>, p: Photon, k: nat, h: nat, i: nat)
    requires LowerBound(ps, p.time, k) && LastBefore(ps, p.time, h) && p.time - ps[h].time >= 1.0
    requires FirstFrom(ps, p.time, i) && ps[i].time - p.time < 1.0
    ensures Merged(ps, p, k) == ps[i := Photon(ps[i].pmtid, p.time, ps[i].count + p.count)]
  {
    assert h < k && ps[k - 1].time < p.time;
    assert k <= i && ps[k].time >= p.time;
  }

  /** Otherwise it is kept for itself. */
  lemma StandsAlone(ps: seq<Photon>, p: Photon, k: nat)
    requires LowerBound(ps, p.time, k)
    requires forall i: nat :: LastBefore(ps, p.time, i) ==> p.time - ps[i].time >= 1.0
    requires forall h: nat, i: nat :: LastBefore(ps, p.time, h) && FirstFrom(ps, p.time, i) ==>
               ps[i].time - p.time >= 1.0
    ensures multiset(Merged(ps, p, k)) == multiset(ps) + multiset{p}
  {
    assert k > 0 ==> LastBefore(ps, p.time, k - 1);
    assert k < |ps| ==> FirstFrom(ps, p.time, k);
    InsertedMultiset(ps, p, k);
  }
}
