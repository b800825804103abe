/** Trimming the change history: a selection and one sweep drop the same entries as removing the oldest one at a
    time. */
module HistoryTrim {
  import opened ValueFormat
  import opened ChangeHistories

  type Entries = seq<HistoryEntry>

  // ----- what trimming means

  /** Index of the oldest entry, the earliest in the list among equals. */
  function OldestIndex(entries: Entries): (r: nat)
    requires entries != []
    ensures r < |entries|
    ensures forall i :: 0 <= i < |entries| ==> entries[r].timestamp <= entries[i].timestamp
    ensures forall i :: 0 <= i < r ==> entries[r].timestamp < entries[i].timestamp
  {
    if |entries| == 1 then 0
    else
      var r := OldestIndex(entries[1..]) + 1;
      if entries[0].timestamp <= entries[r].timestamp then 0 else r
  }

  function WithoutOldest(entries: Entries): (r: Entries)
    requires entries != []
    ensures |r| == |entries| - 1
  {
    var i := OldestIndex(entries);
    entries[..i] + entries[i + 1..]
  }

  /** The oldest entries removed one at a time until `maximum` are left. */
  function Trimmed(entries: Entries, maximum: nat): (r: Entries)
    ensures |r| == if |entries| <= maximum then |entries| else maximum
    decreases |entries|
  {
    if |entries| <= maximum then entries else Trimmed(WithoutOldest(entries), maximum)
  }

  // ----- selection

  function CountLess(stamps: seq<uint64>, c: uint64): (n: nat)
    ensures n <= |stamps|
  {
    if stamps == [] then 0 else (if stamps[0] < c then 1 else 0) + CountLess(stamps[1..], c)
  }

  function CountEqual(stamps: seq<uint64>, c: uint64): (n: nat)
    ensures n <= |stamps|
  {
    if stamps == [] then 0 else (if stamps[0] == c then 1 else 0) + CountEqual(stamps[1..], c)
  }

  /** The stamps below a pivot, and those above it. */
  function Below(stamps: seq<uint64>, p: uint64): (r: seq<uint64>)
    ensures |r| == CountLess(stamps, p)
    ensures forall i :: 0 <= i < |r| ==> r[i] < p
  {
    if stamps == [] then [] else if stamps[0] < p then [stamps[0]] + Below(stamps[1..], p) else Below(stamps[1..], p)
  }

  function Above(stamps: seq<uint64>, p: uint64): (r: seq<uint64>)
    ensures |r| == |stamps| - CountLess(stamps, p) - CountEqual(stamps, p)
    ensures forall i :: 0 <= i < |r| ==> r[i] > p
  {
    if stamps == [] then [] else if stamps[0] > p then [stamps[0]] + Above(stamps[1..], p) else Above(stamps[1..], p)
  }

  lemma {:induction false} CountBelow(stamps: seq<uint64>, p: uint64, c: uint64)
    requires c < p
    ensures CountLess(Below(stamps, p), c) == CountLess(stamps, c)
            && CountEqual(Below(stamps, p), c) == CountEqual(stamps, c)
  {
    if stamps != [] {
      CountBelow(stamps[1..], p, c);
      if stamps[0] < p { assert Below(stamps, p)[1..] == Below(stamps[1..], p); }
    }
  }

  lemma {:induction false} CountAbove(stamps: seq<uint64>, p: uint64, c: uint64)
    requires c > p
    ensures CountLess(stamps, c) == CountLess(Above(stamps, p), c) + CountLess(stamps, p) + CountEqual(stamps, p)
    ensures CountEqual(Above(stamps, p), c) == CountEqual(stamps, c)
  {
    if stamps != [] {
      CountAbove(stamps[1..], p, c);
      if stamps[0] > p { assert Above(stamps, p)[1..] == Above(stamps[1..], p); }
    }
  }

  lemma {:induction false} CountsInside(stamps: seq<uint64>, c: uint64)
    requires CountEqual(stamps, c) > 0
    ensures c in stamps
  {
    if stamps[0] != c { CountsInside(stamps[1..], c); }
  }

  /** std::nth_element: the stamp that sorting would put at position k. */
  method NthElement(stamps: seq<uint64>, k: nat) returns (c: uint64)
    requires k < |stamps|
    ensures CountLess(stamps, c) <= k < CountLess(stamps, c) + CountEqual(stamps, c)
    decreases |stamps|
  {
    var p := stamps[0];
    var below, above := Below(stamps, p), Above(stamps, p);
    if k < |below| {
      c := NthElement(below, k);
      CountsInside(below, c);
      CountBelow(stamps, p, c);
    } else if |stamps| - |above| <= k {
      c := NthElement(above, k - (|stamps| - |above|));
      CountsInside(above, c);
      CountAbove(stamps, p, c);
    } else {
      c := p;
    }
  }

  function Stamps(entries: Entries): (r: seq<uint64>)
    ensures |r| == |entries| && forall i :: 0 <= i < |r| ==> r[i] == entries[i].timestamp
  {
    seq(|entries|, i requires 0 <= i < |entries| => entries[i].timestamp)
  }

  // ----- the sweep

  /** One pass: everything below the cutoff goes, and the first `quota` entries at it. */
  function Sweep(entries: Entries, cutoff: uint64, quota: nat): Entries {
    if entries == [] then []
    else if entries[0].timestamp < cutoff then Sweep(entries[1..], cutoff, quota)
    else if entries[0].timestamp == cutoff && quota > 0 then Sweep(entries[1..], cutoff, quota - 1)
    else [entries[0]] + Sweep(entries[1..], cutoff, quota)
  }

  class ChangeHistory {
    var entries: Entries

    constructor ()
      ensures entries == []
    {
      entries := [];
    }

    method Trim(maximum: nat)
      modifies this
      ensures entries == Trimmed(old(entries), maximum)
    {
      if maximum == 0 {
        entries := [];
        return;
      }
      if |entries| <= maximum {
        return;
      }
      var excess := |entries| - maximum;
      var stamps := Stamps(entries);
      var cutoff := NthElement(stamps, excess - 1);
      var atCutoff: nat := excess - CountLess(stamps, cutoff);
      SweepIsTrimmed(entries, cutoff, atCutoff, maximum);
      CompactInPlace(cutoff, atCutoff);
    }

    /** Moves every entry that stays down over the ones that go, then cuts the rest off. */
    method CompactInPlace(cutoff: uint64, quota: nat)
      modifies this
      ensures entries == Sweep(old(entries), cutoff, quota)
    {
      hide *;
      var atCutoff := quota;
      ghost var all, goal := entries, Sweep(entries, cutoff, atCutoff);
      assert all[0..] == all && [] + goal == goal;
      var kept := 0;
      for entry := 0 to |entries|
        invariant kept <= entry <= |entries| == |all| && entries[entry..] == all[entry..]
        invariant entries[..kept] + Sweep(all[entry..], cutoff, atCutoff) == goal
      {
        SweepStep(entries, all, kept, entry, cutoff, atCutoff);
        if entries[entry].timestamp < cutoff {
          continue;
        }
        if entries[entry].timestamp == cutoff && atCutoff > 0 {
          atCutoff := atCutoff - 1;
          continue;
        }
        if kept != entry {
          entries := entries[kept := entries[entry]];
        }
        kept := kept + 1;
      }
      SweepEnd(all, cutoff, atCutoff);
      entries := entries[..kept];
    }

    static lemma SweepEnd(all: Entries, cutoff: uint64, quota: nat)
      ensures Sweep(all[|all|..], cutoff, quota) == []
    {}

    /** What one turn of the loop does to the entries kept so far and the sweep still to come. */
    static lemma SweepStep(buffer: Entries, all: Entries, kept: nat, entry: nat, cutoff: uint64, quota: nat)
      requires kept <= entry < |buffer| == |all| && buffer[entry..] == all[entry..]
      ensures buffer[entry + 1..] == all[entry + 1..]
      ensures var e, rest := buffer[entry], all[entry + 1..];
              && (e.timestamp < cutoff ==> Sweep(all[entry..], cutoff, quota) == Sweep(rest, cutoff, quota))
              && (e.timestamp == cutoff && quota > 0 ==>
                    Sweep(all[entry..], cutoff, quota) == Sweep(rest, cutoff, quota - 1))
              && (e.timestamp > cutoff || (e.timestamp == cutoff && quota == 0) ==>
                    && buffer[kept := e][entry + 1..] == rest
                    && buffer[kept := e][..kept + 1] + Sweep(rest, cutoff, quota)
                       == buffer[..kept] + Sweep(all[entry..], cutoff, quota)
                    && (kept == entry ==> buffer[kept := e] == buffer))
    {
      assert all[entry..][1..] == all[entry + 1..] && buffer[entry] == buffer[entry..][0] == all[entry..][0];
      assert buffer[entry + 1..] == buffer[entry..][1..];
      MoveDown(buffer, kept, entry);
      Text.ConcatAssoc(buffer[..kept], [buffer[entry]], Sweep(all[entry + 1..], cutoff, quota));
    }

    static lemma MoveDown<T>(s: seq<T>, kept: nat, entry: nat)
      requires kept <= entry < |s|
      ensures s[kept := s[entry]][..kept + 1] == s[..kept] + [s[entry]]
      ensures s[..kept + 1] == s[..kept] + [s[kept]]
      ensures s[kept := s[entry]][entry + 1..] == s[entry + 1..]
    {}

    /** Adds stamped entries and trims. */
    method Append(added: Entries, maximum: nat)
      modifies this
      ensures entries == Trimmed(old(entries) + added, maximum)
    {
      entries := entries + added;
      Trim(maximum);
    }
  }

  // ----- the sweep is the reference

  lemma {:induction false} NothingToDrop(entries: Entries, cutoff: uint64)
    requires CountLess(Stamps(entries), cutoff) == 0
    ensures Sweep(entries, cutoff, 0) == entries
  {
    if entries != [] {
      assert Stamps(entries)[1..] == Stamps(entries[1..]);
      NothingToDrop(entries[1..], cutoff);
    }
  }

  function RemoveAt(entries: Entries, i: nat): Entries
    requires i < |entries|
  {
    entries[..i] + entries[i + 1..]
  }

  lemma RemoveAtCons(entries: Entries, i: nat)
    requires 0 < i < |entries|
    ensures RemoveAt(entries, i) != [] && RemoveAt(entries, i)[0] == entries[0]
    ensures RemoveAt(entries, i)[1..] == RemoveAt(entries[1..], i - 1)
  {}

  lemma {:induction false} CountsRemove(entries: Entries, i: nat, c: uint64)
    requires i < |entries|
    ensures var less, equal := CountLess(Stamps(entries), c), CountEqual(Stamps(entries), c);
            && CountLess(Stamps(RemoveAt(entries, i)), c) == less - (if entries[i].timestamp < c then 1 else 0)
            && CountEqual(Stamps(RemoveAt(entries, i)), c) == equal - (if entries[i].timestamp == c then 1 else 0)
    decreases i
  {
    assert Stamps(entries)[1..] == Stamps(entries[1..]);
    if i == 0 {
      assert RemoveAt(entries, 0) == entries[1..];
    } else {
      RemoveAtCons(entries, i);
      CountsRemove(entries[1..], i - 1, c);
      assert Stamps(RemoveAt(entries, i))[1..] == Stamps(RemoveAt(entries[1..], i - 1));
    }
  }

  /** The sweep ignores an entry below the cutoff, and the first one at it costs one of the quota. */
  lemma {:induction false} SweepRemove(entries: Entries, i: nat, cutoff: uint64, quota: nat)
    requires i < |entries| && entries[i].timestamp <= cutoff
    requires entries[i].timestamp == cutoff ==> quota > 0 && forall j :: 0 <= j < i ==> entries[j].timestamp > cutoff
    ensures Sweep(entries, cutoff, quota) ==
            Sweep(RemoveAt(entries, i), cutoff, if entries[i].timestamp < cutoff then quota else quota - 1)
    decreases i
  {
    if i == 0 {
      assert RemoveAt(entries, 0) == entries[1..];
    } else {
      RemoveAtCons(entries, i);
      if entries[0].timestamp == cutoff && quota > 0 {
        SweepRemove(entries[1..], i - 1, cutoff, quota - 1);
      } else {
        SweepRemove(entries[1..], i - 1, cutoff, quota);
      }
    }
  }

  lemma {:induction false} NoneLess(entries: Entries, c: uint64)
    requires forall i :: 0 <= i < |entries| ==> c <= entries[i].timestamp
    ensures CountLess(Stamps(entries), c) == 0
  {
    if entries != [] {
      assert Stamps(entries)[1..] == Stamps(entries[1..]);
      NoneLess(entries[1..], c);
    }
  }

  lemma {:induction false} NoneEqual(entries: Entries, c: uint64)
    requires forall i :: 0 <= i < |entries| ==> c < entries[i].timestamp
    ensures CountEqual(Stamps(entries), c) == 0
  {
    if entries != [] {
      assert Stamps(entries)[1..] == Stamps(entries[1..]);
      NoneEqual(entries[1..], c);
    }
  }

  /** Sweeping at the right cutoff and quota is removing the oldest entry that many times. */
  lemma {:induction false} SweepIsTrimmed(entries: Entries, cutoff: uint64, quota: nat, maximum: nat)
    requires maximum <= |entries|
    requires CountLess(Stamps(entries), cutoff) + quota == |entries| - maximum
    requires quota <= CountEqual(Stamps(entries), cutoff)
    ensures Sweep(entries, cutoff, quota) == Trimmed(entries, maximum)
    decreases |entries|
  {
    if |entries| == maximum {
      NothingToDrop(entries, cutoff);
    } else {
      var i := OldestIndex(entries);
      var oldest := entries[i].timestamp;
      if oldest > cutoff {
        NoneEqual(entries, cutoff);
      }
      if oldest >= cutoff {
        NoneLess(entries, cutoff);
      }
      CountsRemove(entries, i, cutoff);
      SweepRemove(entries, i, cutoff, quota);
      SweepIsTrimmed(RemoveAt(entries, i), cutoff, if oldest < cutoff then quota else quota - 1, maximum);
    }
  }

  // ----- consequences

  /** Entry a goes before entry b does. */
  predicate Older(entries: Entries, a: nat, b: nat)
    requires a < |entries| && b < |entries|
  {
    entries[a].timestamp < entries[b].timestamp || (entries[a].timestamp == entries[b].timestamp && a < b)
  }

  /** `places` picks entries in list order, and every entry not picked is older than every one picked. */
  ghost predicate PicksNewest(entries: Entries, places: seq<nat>) {
    && (forall i :: 0 <= i < |places| ==> places[i] < |entries|)
    && (forall i, j :: 0 <= i < j < |places| ==> places[i] < places[j])
    && (forall i, d :: 0 <= i < |places| && 0 <= d < |entries| && d !in places ==> Older(entries, d, places[i]))
  }

  function Lift(o: nat, p: nat): nat {
    if p < o then p else p + 1
  }

  lemma LiftPicks(entries: Entries, inner: seq<nat>, places: seq<nat>)
    requires entries != [] && PicksNewest(WithoutOldest(entries), inner)
    requires |places| == |inner| && forall i :: 0 <= i < |inner| ==> places[i] == Lift(OldestIndex(entries), inner[i])
    ensures PicksNewest(entries, places)
  {
    var o, rest := OldestIndex(entries), WithoutOldest(entries);
    forall i, d | 0 <= i < |places| && 0 <= d < |entries| && d !in places ensures Older(entries, d, places[i]) {
      assert rest[inner[i]] == entries[places[i]];
      if d != o {
        var e := if d < o then d else d - 1;
        assert rest[e] == entries[d];
        assert Lift(o, e) == d;
        assert forall k :: 0 <= k < |inner| ==> Lift(o, inner[k]) in places;
        assert e !in inner;
        assert Older(rest, e, inner[i]);
      }
    }
  }

  /** `places` says where the entries of `kept` stood. */
  ghost predicate Selects(entries: Entries, kept: Entries, places: seq<nat>) {
    && PicksNewest(entries, places)
    && |places| == |kept| && forall i :: 0 <= i < |places| ==> kept[i] == entries[places[i]]
  }

  function Identity(n: nat): (places: seq<nat>)
    ensures |places| == n && forall i :: 0 <= i < n ==> places[i] == i
  {
    seq(n, i => i)
  }

  function Lifted(o: nat, inner: seq<nat>): (places: seq<nat>)
    ensures |places| == |inner| && forall i :: 0 <= i < |inner| ==> places[i] == Lift(o, inner[i])
  {
    seq(|inner|, i requires 0 <= i < |inner| => Lift(o, inner[i]))
  }

  lemma SelectsAll(entries: Entries)
    ensures Selects(entries, entries, Identity(|entries|))
  {
    forall d | 0 <= d < |entries| ensures d in Identity(|entries|) {
      assert Identity(|entries|)[d] == d;
    }
  }

  lemma LiftSelects(entries: Entries, kept: Entries, inner: seq<nat>)
    requires entries != [] && Selects(WithoutOldest(entries), kept, inner)
    ensures Selects(entries, kept, Lifted(OldestIndex(entries), inner))
  {
    var places := Lifted(OldestIndex(entries), inner);
    LiftPicks(entries, inner, places);
    forall i | 0 <= i < |places| ensures kept[i] == entries[places[i]] {
      assert kept[i] == WithoutOldest(entries)[inner[i]];
    }
  }

  /** Trimming keeps list order, and every entry it drops is older than every one it keeps. */
  lemma {:induction false} TrimmedKeepsNewest(entries: Entries, maximum: nat)
    ensures exists places :: Selects(entries, Trimmed(entries, maximum), places)
    decreases |entries|
  {
    hide Selects;
    if |entries| <= maximum {
      SelectsAll(entries);
      assert Selects(entries, Trimmed(entries, maximum), Identity(|entries|));
    } else {
      TrimmedKeepsNewest(WithoutOldest(entries), maximum);
      var inner :| Selects(WithoutOldest(entries), Trimmed(entries, maximum), inner);
      LiftSelects(entries, Trimmed(entries, maximum), inner);
    }
  }
}
