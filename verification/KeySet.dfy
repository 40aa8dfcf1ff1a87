/** The fixed-capacity set of keys (src/comm/struct/set.c): open addressing with linear
    probing, nothing is ever removed. The hash function is a parameter. */
module KeySet {
  import opened Bytes
  import opened PowersOfTwo

  const MAX_KEY_LEN: nat := 64

  datatype Answer = Unique | Full | Exists | TooLong

  /** Slot number `k` of the probe sequence that starts at `h`. */
  function Probe(cap: nat, h: nat, k: nat): (p: nat)
    requires h < cap && k < cap
    ensures p < cap
  {
    if h + k < cap then h + k else h + k - cap
  }

  /** How many probes from `h` reach slot `p`. */
  function Distance(cap: nat, h: nat, p: nat): (k: nat)
    requires h < cap && p < cap
    ensures k < cap && Probe(cap, h, k) == p
  {
    if h <= p then p - h else p + cap - h
  }

  type Slots = seq<Option<bytes>>

  function Start(hash: bytes -> nat, cap: nat, key: bytes): (h: nat)
    requires cap > 0
    ensures h < cap
  {
    hash(key) % cap
  }

  /** Every key can be found from its start: no slot on the way is empty. */
  ghost predicate Findable(hash: bytes -> nat, s: Slots, p: nat)
    requires p < |s| && s[p].Some?
  {
    forall k :: 0 <= k < Distance(|s|, Start(hash, |s|, s[p].value), p)
      ==> s[Probe(|s|, Start(hash, |s|, s[p].value), k)].Some?
  }

  ghost predicate Probed(hash: bytes -> nat, s: Slots) {
    && (forall p :: 0 <= p < |s| && s[p].Some? ==> Findable(hash, s, p))
    && (forall p, q :: 0 <= p < q < |s| && s[p].Some? && s[q].Some? ==> s[p].value != s[q].value)
  }

  function Members(s: Slots): set<bytes> {
    if s == [] then {} else Members(s[..|s| - 1]) + (if s[|s| - 1].Some? then {s[|s| - 1].value} else {})
  }

  function Used(s: Slots): nat {
    if s == [] then 0 else Used(s[..|s| - 1]) + (if s[|s| - 1].Some? then 1 else 0)
  }

  lemma {:induction false} MemberAt(s: Slots, key: bytes)
    ensures key in Members(s) <==> exists p :: 0 <= p < |s| && s[p] == Some(key)
  {
    if s != [] {
      var n := |s| - 1;
      MemberAt(s[..n], key);
      if key in Members(s[..n]) {
        var p :| 0 <= p < n && s[..n][p] == Some(key);
        assert s[p] == Some(key);
      }
      if p :| 0 <= p < |s| && s[p] == Some(key) {
        if p < n {
          assert s[..n][p] == Some(key);
        }
      }
    }
  }

  ghost predicate DistinctSlots(s: Slots) {
    forall p, q :: 0 <= p < q < |s| && s[p].Some? && s[q].Some? ==> s[p].value != s[q].value
  }

  lemma {:induction false} MembersCounted(s: Slots)
    requires DistinctSlots(s)
    ensures |Members(s)| == Used(s) <= |s|
    ensures Used(s) == |s| <==> forall p :: 0 <= p < |s| ==> s[p].Some?
  {
    if s != [] {
      var n := |s| - 1;
      MembersCounted(s[..n]);
      if s[n].Some? {
        MemberAt(s[..n], s[n].value);
      }
      assert forall p :: 0 <= p < n ==> s[..n][p] == s[p];
    }
  }

  lemma {:induction false} MembersPut(s: Slots, p: nat, key: bytes)
    requires p < |s| && s[p].None?
    ensures Members(s[p := Some(key)]) == Members(s) + {key}
  {
    var n := |s| - 1;
    var t := s[p := Some(key)];
    if p == n {
      assert t[..n] == s[..n];
    } else {
      assert t[..n] == s[..n][p := Some(key)];
      MembersPut(s[..n], p, key);
    }
  }

  /** The key is in none of the first `k` slots of its probe sequence, all of them used. */
  ghost predicate Missed(s: Slots, key: bytes, h: nat, k: nat) {
    h < |s| && k <= |s| && forall j :: 0 <= j < k ==> s[Probe(|s|, h, j)].Some? && s[Probe(|s|, h, j)].value != key
  }

  /** An empty slot on the probe sequence means the key is absent. */
  lemma EmptyMeansAbsent(hash: bytes -> nat, s: Slots, key: bytes, k: nat)
    requires |s| > 0 && Probed(hash, s) && Missed(s, key, Start(hash, |s|, key), k) && k < |s|
    requires s[Probe(|s|, Start(hash, |s|, key), k)].None?
    ensures key !in Members(s)
  {
    hide Start;
    MemberAt(s, key);
    forall p | 0 <= p < |s| && s[p].Some? ensures s[p] != Some(key) {
      NotThere(hash, s, key, k, p);
    }
  }

  lemma NotThere(hash: bytes -> nat, s: Slots, key: bytes, k: nat, p: nat)
    requires |s| > 0 && Probed(hash, s) && Missed(s, key, Start(hash, |s|, key), k) && k < |s|
    requires s[Probe(|s|, Start(hash, |s|, key), k)].None? && p < |s| && s[p].Some?
    ensures s[p] != Some(key)
  {
    hide Start;
    assert Findable(hash, s, p);
    var d := Distance(|s|, Start(hash, |s|, key), p);
    assert d < k ==> s[Probe(|s|, Start(hash, |s|, key), d)].value != key;
  }

  lemma AllProbed(hash: bytes -> nat, s: Slots, key: bytes, h: nat)
    requires |s| > 0 && Missed(s, key, h, |s|)
    ensures key !in Members(s) && forall p :: 0 <= p < |s| ==> s[p].Some?
  {
    MemberAt(s, key);
    forall p | 0 <= p < |s| ensures s[p].Some? && s[p].value != key {
      assert s[Probe(|s|, h, Distance(|s|, h, p))].Some?;
    }
  }

  lemma PutKeepsProbed(hash: bytes -> nat, s: Slots, key: bytes, k: nat)
    requires |s| > 0 && Probed(hash, s) && Missed(s, key, Start(hash, |s|, key), k) && k < |s|
    requires s[Probe(|s|, Start(hash, |s|, key), k)].None? && key !in Members(s)
    ensures Probed(hash, s[Probe(|s|, Start(hash, |s|, key), k) := Some(key)])
  {
    hide Start;
    var h := Start(hash, |s|, key);
    var at := Probe(|s|, h, k);
    var t := s[at := Some(key)];
    MemberAt(s, key);
    forall p | 0 <= p < |t| && t[p].Some? ensures Findable(hash, t, p) {
      if p != at {
        assert Findable(hash, s, p);
      }
    }
  }

  class Set {
    const hash: bytes -> nat
    const entries: array<Option<bytes>>
    var length: nat

    ghost predicate Valid()
      reads this, entries
    {
      Probed(hash, entries[..]) && length == Used(entries[..])
    }

    ghost function Contents(): set<bytes>
      reads this, entries
    {
      Members(entries[..])
    }

    /** `set_init`: the capacity is rounded down to a power of two. */
    constructor (h: bytes -> nat, capacity: nat)
      ensures Valid() && Contents() == {} && fresh(entries) && hash == h
      ensures entries.Length == FloorPowerOfTwo(capacity)
    {
      hash := h;
      entries := new Option<bytes>[FloorPowerOfTwo(capacity)];
      length := 0;
      new;
      forall i | 0 <= i < entries.Length {
        entries[i] := None;
      }
      NothingUsed(entries[..]);
    }

    /** Puts the key into the empty slot the probe loop stopped at. */
    method Put(key: bytes, idx: nat, ghost probe: nat)
      requires Valid() && 0 < entries.Length && probe < entries.Length
      requires idx == Probe(entries.Length, Start(hash, entries.Length, key), probe) && entries[idx].None?
      requires Missed(entries[..], key, Start(hash, entries.Length, key), probe)
      modifies this, entries
      ensures Valid() && key !in old(Contents()) && Contents() == old(Contents()) + {key}
      ensures |old(Contents())| < entries.Length
    {
      hide Probed;
      hide Members;
      hide Used;
      hide Missed;
      hide Start;
      hide Probe;
      hide DistinctSlots;
      ghost var before := entries[..];
      ProbedParts(hash, before);
      MembersCounted(before);
      EmptyMeansAbsent(hash, before, key, probe);
      PutKeepsProbed(hash, before, key, probe);
      MembersPut(before, idx, key);
      entries[idx] := Some(key);
      assert entries[..] == before[idx := Some(key)];
      ProbedParts(hash, entries[..]);
      MembersCounted(entries[..]);
      length := length + 1;
    }

    /** `set_insert`: it answers as a mathematical set of limited size would. */
    method Insert(key: bytes) returns (r: Answer)
      requires Valid()
      modifies this, entries
      ensures Valid()
      ensures r == if |key| > 64 then TooLong
                   else if key in old(Contents()) then Exists
                   else if |old(Contents())| >= entries.Length then Full
                   else Unique
      ensures Contents() == if r == Unique then old(Contents()) + {key} else old(Contents())
    {
      hide Probed;
      hide Members;
      hide Used;
      hide Missed;
      hide Start;
      hide Probe;
      hide DistinctSlots;
      ProbedParts(hash, entries[..]);
      MembersCounted(entries[..]);
      MemberAt(entries[..], key);
      if |key| > MAX_KEY_LEN {
        return TooLong;
      }
      var capacity := entries.Length;
      if capacity == 0 {
        return Full;
      }
      var idx := Start(hash, capacity, key);
      ghost var h := idx;
      var probe := 0;
      MissedNone(entries[..], key, h);
      ProbeZero(capacity, h);
      while probe < capacity
        invariant 0 <= probe <= capacity && idx < capacity
        invariant probe < capacity ==> idx == Probe(capacity, h, probe)
        invariant Missed(entries[..], key, h, probe)
        invariant entries[..] == old(entries[..]) && length == old(length)
      {
        if entries[idx].None? {
          Put(key, idx, probe);
          return Unique;
        }
        if entries[idx].value == key {
          assert entries[..][idx] == Some(key);
          return Exists;
        }
        MissedStep(entries[..], key, h, probe);
        ProbeStep(capacity, h, probe);
        idx := idx + 1;
        if idx >= capacity {
          idx := 0;
        }
        probe := probe + 1;
      }
      AllProbed(hash, entries[..], key, h);
      r := Full;
    }
  }

  lemma ProbedParts(hash: bytes -> nat, s: Slots)
    requires Probed(hash, s)
    ensures DistinctSlots(s)
  {
    hide Findable;
  }

  lemma MissedNone(s: Slots, key: bytes, h: nat)
    requires h < |s|
    ensures Missed(s, key, h, 0)
  {
  }

  lemma MissedStep(s: Slots, key: bytes, h: nat, k: nat)
    requires Missed(s, key, h, k) && k < |s| && s[Probe(|s|, h, k)].Some? && s[Probe(|s|, h, k)].value != key
    ensures Missed(s, key, h, k + 1)
  {
    hide Probe;
  }

  lemma ProbeZero(cap: nat, h: nat)
    requires h < cap
    ensures Probe(cap, h, 0) == h
  {
  }

  lemma ProbeStep(cap: nat, h: nat, k: nat)
    requires h < cap && k < cap
    ensures k + 1 < cap ==> Probe(cap, h, k + 1) == if Probe(cap, h, k) + 1 >= cap then 0 else Probe(cap, h, k) + 1
  {
  }

  lemma {:induction false} NothingUsed(s: Slots)
    requires forall i :: 0 <= i < |s| ==> s[i].None?
    ensures Members(s) == {} && Used(s) == 0
  {
    if s != [] {
      NothingUsed(s[..|s| - 1]);
    }
  }
}
