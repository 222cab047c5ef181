/** The processor records of the MADT (section 5.2.12 of the ACPI Specification): counting enabled
    processors and finding the local APIC id of a processor number. */
module Madt {
  import opened Bits
  import opened LittleEndian
  import opened SmpStartup

  const TYPE_LAPIC: nat := 0
  const NOT_FOUND: nat := 0xFF

  datatype Lapic = Lapic(uid: nat, apicId: nat, enabled: bool)

  /** Complete records up to the end of the table; a zero length would stop the source's loops from advancing. */
  predicate RecordsOk(b: seq<byte>, p: nat)
    decreases |b| - p
  {
    p >= |b| ||
    (&& p + 2 <= |b|
     && b[p + 1] >= 2
     && p + b[p + 1] <= |b|
     && (b[p] == TYPE_LAPIC ==> b[p + 1] >= 8)
     && RecordsOk(b, p + b[p + 1]))
  }

  function LapicAt(b: seq<byte>, p: nat): (l: Lapic)
    requires p + 8 <= |b|
  {
    Lapic(b[p + 2], b[p + 3], b[p + 4] % 2 == 1)
  }

  /** The local APIC records from `p` on, in table order. */
  function Lapics(b: seq<byte>, p: nat): (ls: seq<Lapic>)
    requires RecordsOk(b, p)
    decreases |b| - p
  {
    if p >= |b| then []
    else (if b[p] == TYPE_LAPIC then [LapicAt(b, p)] else []) + Lapics(b, p + b[p + 1])
  }

  function EnabledCount(ls: seq<Lapic>): (n: nat)
  {
    if ls == [] then 0 else (if ls[0].enabled then 1 else 0) + EnabledCount(ls[1..])
  }

  /** The id of the first enabled record with the given number. */
  function ApicOf(ls: seq<Lapic>, uid: nat): (id: nat)
  {
    if ls == [] then NOT_FOUND
    else if ls[0].uid == uid && ls[0].enabled then ls[0].apicId
    else ApicOf(ls[1..], uid)
  }

  class MadtTable {
    var entries: seq<byte>
    var cpuCount: nat

    /** `madt_parse`: the counter is not reset, so it accumulates over calls. */
    method Parse(table: seq<byte>)
      requires RecordsOk(table, 0)
      modifies this
      ensures entries == table
      ensures cpuCount % U32 == (old(cpuCount) + EnabledCount(Lapics(table, 0))) % U32
    {
      hide Lapics, EnabledCount;
      entries := table;
      NoRecords(table);
      var p: nat := 0;
      ghost var all := EnabledCount(Lapics(table, 0));
      ghost var seen: nat := 0;
      while p < |table|
        invariant RecordsOk(table, p) && entries == table
        invariant seen + EnabledCount(Lapics(table, p)) == all
        invariant cpuCount % U32 == (old(cpuCount) + seen) % U32
        decreases |table| - p
      {
        RecordCount(table, p);
        if table[p] == TYPE_LAPIC && table[p + 4] % 2 == 1 {
          WrapStep(cpuCount, old(cpuCount) + seen);
          cpuCount := (cpuCount + 1) % U32;
          seen := seen + 1;
        }
        p := p + table[p + 1];
      }
    }

    /** `madt_get_lapic_id`. */
    method GetLapicId(cpu: nat) returns (id: nat)
      requires RecordsOk(entries, 0)
      ensures id == ApicOf(Lapics(entries, 0), cpu)
    {
      var p: nat := 0;
      while p < |entries|
        invariant RecordsOk(entries, p)
        invariant ApicOf(Lapics(entries, p), cpu) == ApicOf(Lapics(entries, 0), cpu)
        decreases |entries| - p
      {
        if entries[p] == TYPE_LAPIC {
          LookFirst(LapicAt(entries, p), Lapics(entries, p + entries[p + 1]), cpu);
          if entries[p + 2] == cpu && entries[p + 4] % 2 == 1 {
            return entries[p + 3];
          }
        } else {
          assert [] + Lapics(entries, p + entries[p + 1]) == Lapics(entries, p + entries[p + 1]);
        }
        p := p + entries[p + 1];
      }
      id := NOT_FOUND;
    }
  }

  lemma CountFirst(l: Lapic, ls: seq<Lapic>)
    ensures EnabledCount([l] + ls) == (if l.enabled then 1 else 0) + EnabledCount(ls)
  {
    assert ([l] + ls)[1..] == ls;
  }

  /** What the record at `p` adds to the count. */
  lemma RecordCount(b: seq<byte>, p: nat)
    requires RecordsOk(b, p) && p < |b|
    ensures EnabledCount(Lapics(b, p)) ==
            (if b[p] == TYPE_LAPIC && b[p + 4] % 2 == 1 then 1 else 0) + EnabledCount(Lapics(b, p + b[p + 1]))
  {
    var rest := Lapics(b, p + b[p + 1]);
    if b[p] == TYPE_LAPIC {
      CountFirst(LapicAt(b, p), rest);
    } else {
      assert [] + rest == rest;
    }
  }

  lemma NoRecords(b: seq<byte>)
    ensures forall p: nat :: p >= |b| && RecordsOk(b, p) ==> EnabledCount(Lapics(b, p)) == 0
  {
  }

  lemma LookFirst(l: Lapic, ls: seq<Lapic>, uid: nat)
    ensures ApicOf([l] + ls, uid) == if l.uid == uid && l.enabled then l.apicId else ApicOf(ls, uid)
  {
    assert ([l] + ls)[1..] == ls;
  }

  lemma WrapStep(a: nat, b: nat)
    requires a % U32 == b % U32
    ensures (a + 1) % U32 % U32 == (b + 1) % U32
  {
    ModSucc(a, U32);
    ModSucc(b, U32);
  }

  // ----- the table written out ---------------------------------------------

  /** A processor local APIC record with its 32-bit flags, or any other record. */
  datatype Record = Processor(uid: byte, apicId: byte, flags: nat) | OtherRecord(kind: byte, body: seq<byte>)

  predicate RecordInRange(r: Record) {
    match r
    case Processor(_, _, flags) => flags < U32
    case OtherRecord(kind, body) => kind != 0 && |body| + 2 < 256
  }

  /** Type 0, length 8, processor number, APIC id, flags; or type, length and body. */
  function EncodeRecord(r: Record): (s: seq<byte>)
    requires RecordInRange(r)
  {
    match r
    case Processor(uid, apicId, flags) => [0, 8, uid, apicId] + Encoded(flags, 4)
    case OtherRecord(kind, body) => [kind, |body| + 2] + body
  }

  predicate InRange(rs: seq<Record>) { forall i :: 0 <= i < |rs| ==> RecordInRange(rs[i]) }

  function EncodeRecords(rs: seq<Record>): (s: seq<byte>)
    requires InRange(rs)
  {
    if rs == [] then [] else EncodeRecord(rs[0]) + EncodeRecords(rs[1..])
  }

  /** The processors among the records; bit 0 of the flags says enabled. */
  function Processors(rs: seq<Record>): (ls: seq<Lapic>)
  {
    if rs == [] then []
    else (if rs[0].Processor? then [Lapic(rs[0].uid, rs[0].apicId, rs[0].flags % 2 == 1)] else []) + Processors(rs[1..])
  }

  lemma LowBit(flags: nat)
    ensures Encoded(flags, 4)[0] % 2 == flags % 2
  {
    assert Encoded(flags, 4)[0] == flags % 256;
    var q, r := flags / 256, flags % 256;
    assert flags == r + 2 * (128 * q);
    ModShift(r, 2, 128 * q);
  }

  /** What the bytes of one record say to the walk. */
  lemma ReadsRecord(b: seq<byte>, p: nat, r: Record)
    requires RecordInRange(r) && Holds(b, p, EncodeRecord(r))
    ensures p + 2 <= |b| && p + |EncodeRecord(r)| <= |b| && b[p + 1] == |EncodeRecord(r)| >= 2
    ensures b[p] == TYPE_LAPIC <==> r.Processor?
    ensures r.Processor? ==> |EncodeRecord(r)| == 8 && p + 8 <= |b| && LapicAt(b, p) == Lapic(r.uid, r.apicId, r.flags % 2 == 1)
  {
    hide Encoded;
    var s := EncodeRecord(r);
    HoldsAt(b, p, s, 0);
    HoldsAt(b, p, s, 1);
    if r.Processor? {
      HoldsAt(b, p, s, 2);
      HoldsAt(b, p, s, 3);
      HoldsAt(b, p, s, 4);
      LowBit(r.flags);
      assert s[4] == Encoded(r.flags, 4)[0];
    }
  }

  lemma AtEnd(b: seq<byte>)
    ensures RecordsOk(b, |b|) && Lapics(b, |b|) == []
  {
  }

  /** The walk over one complete record. */
  lemma RecordStep(b: seq<byte>, p: nat)
    requires p + 2 <= |b| && b[p + 1] >= 2 && p + b[p + 1] <= |b| && (b[p] == TYPE_LAPIC ==> b[p + 1] >= 8)
    requires RecordsOk(b, p + b[p + 1])
    ensures RecordsOk(b, p)
    ensures Lapics(b, p) == (if b[p] == TYPE_LAPIC then [LapicAt(b, p)] else []) + Lapics(b, p + b[p + 1])
  {
  }

  lemma {:induction false} ReadsRecords(b: seq<byte>, p: nat, rs: seq<Record>)
    requires InRange(rs) && Holds(b, p, EncodeRecords(rs)) && p + |EncodeRecords(rs)| == |b|
    ensures RecordsOk(b, p) && Lapics(b, p) == Processors(rs)
    decreases |rs|
  {
    hide EncodeRecord, LapicAt, Holds, RecordInRange, RecordsOk, Lapics;
    if rs == [] {
      AtEnd(b);
    } else {
      var first, rest := EncodeRecord(rs[0]), EncodeRecords(rs[1..]);
      assert EncodeRecords(rs) == first + rest;
      HoldsParts(b, p, first, rest);
      ReadsRecord(b, p, rs[0]);
      ReadsRecords(b, p + |first|, rs[1..]);
      RecordStep(b, p);
    }
  }

  /** Whatever records the firmware writes, the walk meets exactly its processors, in order. */
  lemma LapicsOfEncoding(rs: seq<Record>)
    requires InRange(rs)
    ensures RecordsOk(EncodeRecords(rs), 0) && Lapics(EncodeRecords(rs), 0) == Processors(rs)
  {
    var b := EncodeRecords(rs);
    assert b[0..|b|] == b;
    ReadsRecords(b, 0, rs);
  }

  /** Walking the records from `q` arrives at `p`. */
  predicate Reaches(b: seq<byte>, q: nat, p: nat)
    requires RecordsOk(b, q)
    decreases |b| - q
  {
    q == p || (q < |b| && Reaches(b, q + b[q + 1], p))
  }

  /** An enabled processor record at `p`, by its bytes. */
  predicate EnabledRecord(b: seq<byte>, p: nat) { p + 8 <= |b| && b[p] == 0 && b[p + 4] % 2 == 1 }

  /** On the bytes: `madt_get_lapic_id` of the number in byte 2 of an enabled processor record is its byte 3,
      if no earlier enabled record has that number. */
  lemma {:induction false} LookupOnBytes(b: seq<byte>, q: nat, p: nat)
    requires RecordsOk(b, q) && Reaches(b, q, p) && EnabledRecord(b, p)
    requires forall r: nat :: r < p && Reaches(b, q, r) && EnabledRecord(b, r) ==> b[r + 2] != b[p + 2]
    ensures ApicOf(Lapics(b, q), b[p + 2]) == b[p + 3]
    decreases |b| - q
  {
    ReachesForward(b, q, p);
    if q == p {
      LookFirst(LapicAt(b, p), Lapics(b, p + b[p + 1]), b[p + 2]);
    } else {
      var n := q + b[q + 1];
      ReachesForward(b, n, p);
      assert Reaches(b, q, q);
      forall r: nat | r < p && Reaches(b, n, r) && EnabledRecord(b, r)
        ensures b[r + 2] != b[p + 2]
      {
        assert Reaches(b, q, r);
      }
      LookupOnBytes(b, n, p);
      if b[q] == TYPE_LAPIC {
        LookFirst(LapicAt(b, q), Lapics(b, n), b[p + 2]);
      } else {
        assert [] + Lapics(b, n) == Lapics(b, n);
      }
    }
  }

  /** And 0xFF if no enabled record has the number. */
  lemma {:induction false} LookupMissing(b: seq<byte>, q: nat, uid: nat)
    requires RecordsOk(b, q)
    requires forall r: nat :: Reaches(b, q, r) && EnabledRecord(b, r) ==> b[r + 2] != uid
    ensures ApicOf(Lapics(b, q), uid) == 0xFF
    decreases |b| - q
  {
    if q < |b| {
      var n := q + b[q + 1];
      assert Reaches(b, q, q);
      forall r: nat | Reaches(b, n, r) && EnabledRecord(b, r)
        ensures b[r + 2] != uid
      {
        assert Reaches(b, q, r);
      }
      LookupMissing(b, n, uid);
      if b[q] == TYPE_LAPIC {
        LookFirst(LapicAt(b, q), Lapics(b, n), uid);
      } else {
        assert [] + Lapics(b, n) == Lapics(b, n);
      }
    }
  }

  lemma {:induction false} ReachesForward(b: seq<byte>, q: nat, p: nat)
    requires RecordsOk(b, q) && Reaches(b, q, p)
    ensures q <= p && RecordsOk(b, p)
    decreases |b| - q
  {
    if q != p {
      ReachesForward(b, q + b[q + 1], p);
    }
  }

  // ----- from the table to the start-up protocol ---------------------------

  /** What the start-up code relies on: the enabled processors are numbered 0, 1, … without gaps or
      repetition, and their APIC ids differ. */
  predicate Dense(ls: seq<Lapic>) {
    && (forall i, j :: 0 <= i < j < |ls| && ls[i].enabled && ls[j].enabled ==>
          ls[i].uid != ls[j].uid && ls[i].apicId != ls[j].apicId)
    && (forall i :: 0 <= i < |ls| && ls[i].enabled ==> ls[i].uid < EnabledCount(ls))
  }

  lemma {:induction false} LookupFinds(ls: seq<Lapic>, i: nat)
    requires i < |ls| && ls[i].enabled
    requires forall j :: 0 <= j < i && ls[j].enabled ==> ls[j].uid != ls[i].uid
    ensures ApicOf(ls, ls[i].uid) == ls[i].apicId
    decreases |ls|
  {
    if i > 0 {
      assert ls[1..][i - 1] == ls[i];
      forall j | 0 <= j < i - 1 && ls[1..][j].enabled
        ensures ls[1..][j].uid != ls[i].uid
      {
        assert ls[1..][j] == ls[j + 1];
      }
      LookupFinds(ls[1..], i - 1);
    }
  }

  /** The numbers of the enabled records, as a set. */
  function EnabledUids(ls: seq<Lapic>): (r: set<nat>)
  {
    if ls == [] then {} else (if ls[0].enabled then {ls[0].uid} else {}) + EnabledUids(ls[1..])
  }

  lemma {:induction false} UidsAre(ls: seq<Lapic>)
    ensures forall u :: u in EnabledUids(ls) <==> exists i :: 0 <= i < |ls| && ls[i].enabled && ls[i].uid == u
    decreases |ls|
  {
    if ls != [] {
      UidsAre(ls[1..]);
      forall u | u in EnabledUids(ls)
        ensures exists i :: 0 <= i < |ls| && ls[i].enabled && ls[i].uid == u
      {
        if !(ls[0].enabled && ls[0].uid == u) {
          assert u in EnabledUids(ls[1..]);
          var i :| 0 <= i < |ls[1..]| && ls[1..][i].enabled && ls[1..][i].uid == u;
          assert ls[i + 1] == ls[1..][i];
        }
      }
      forall i | 0 <= i < |ls| && ls[i].enabled
        ensures ls[i].uid in EnabledUids(ls)
      {
        if i > 0 {
          assert ls[1..][i - 1] == ls[i];
        }
      }
    }
  }

  lemma {:induction false} UidsCount(ls: seq<Lapic>)
    requires forall i, j :: 0 <= i < j < |ls| && ls[i].enabled && ls[j].enabled ==> ls[i].uid != ls[j].uid
    ensures |EnabledUids(ls)| == EnabledCount(ls)
    decreases |ls|
  {
    if ls != [] {
      var rest := ls[1..];
      assert forall i :: 0 <= i < |rest| ==> rest[i] == ls[i + 1];
      UidsCount(rest);
      UidsAre(rest);
      if ls[0].enabled {
        assert ls[0].uid !in EnabledUids(rest);
      }
    }
  }

  lemma {:induction false} BoundedSet(s: set<nat>, n: nat)
    requires |s| == n && forall x :: x in s ==> x < n
    ensures forall x: nat :: x < n ==> x in s
  {
    if n > 0 {
      if n - 1 in s {
        var t := s - {n - 1};
        assert forall x :: x in t ==> x < n - 1;
        BoundedSet(t, n - 1);
      } else {
        TooFew(s, n - 1);
      }
    }
  }

  lemma {:induction false} TooFew(s: set<nat>, n: nat)
    requires forall x :: x in s ==> x < n
    ensures |s| <= n
  {
    if n == 0 {
      assert s == {};
    } else {
      var t := s - {n - 1};
      TooFew(t, n - 1);
      assert s <= t + {n - 1};
      if n - 1 in s {
        assert s == t + {n - 1};
      } else {
        assert s == t;
      }
    }
  }

  /** Every processor number below the count is found. */
  lemma EveryNumberFound(ls: seq<Lapic>, u: nat) returns (i: nat)
    requires Dense(ls) && u < EnabledCount(ls)
    ensures i < |ls| && ls[i].enabled && ls[i].uid == u && ApicOf(ls, u) == ls[i].apicId
  {
    UidsCount(ls);
    UidsAre(ls);
    BoundedSet(EnabledUids(ls), EnabledCount(ls));
    assert u in EnabledUids(ls);
    i :| 0 <= i < |ls| && ls[i].enabled && ls[i].uid == u;
    LookupFinds(ls, i);
  }

  /** With at most 16 dense enabled processors, the boot loop `for cpu in 0..cpu_count` skips exactly the
      boot processor and addresses every other processor once, as the start-up protocol assumes. */
  lemma LoopVisitsEachAp(ls: seq<Lapic>, bootRecord: nat)
    requires Dense(ls) && bootRecord < |ls| && ls[bootRecord].enabled && EnabledCount(ls) <= MAX_APS
    ensures ConfigOk(Config(EnabledCount(ls), ls[bootRecord].uid))
    ensures forall u: nat :: u < EnabledCount(ls) ==> (ApicOf(ls, u) == ls[bootRecord].apicId <==> u == ls[bootRecord].uid)
    ensures forall u: nat, v: nat :: u < EnabledCount(ls) && v < EnabledCount(ls) && ApicOf(ls, u) == ApicOf(ls, v) ==> u == v
  {
    forall u: nat | u < EnabledCount(ls)
      ensures ApicOf(ls, u) == ls[bootRecord].apicId <==> u == ls[bootRecord].uid
    {
      var i := EveryNumberFound(ls, u);
    }
    forall u: nat, v: nat | u < EnabledCount(ls) && v < EnabledCount(ls) && ApicOf(ls, u) == ApicOf(ls, v)
      ensures u == v
    {
      var i := EveryNumberFound(ls, u);
      var j := EveryNumberFound(ls, v);
    }
  }
}
