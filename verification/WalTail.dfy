/** The log is opened for append without cutting off a torn record. What the next recovery makes of records
    appended behind one. */
module WalTail {
  import opened Common
  import opened Bytes
  import opened MvccVersions
  import opened WalLog

  // ---- The reader sees only what is ahead of it ----

  lemma {:induction false} FieldShift(a: seq<byte>, b: seq<byte>, pos: nat, end: nat)
    requires pos <= end <= |b|
    ensures FieldAt(a + b, |a| + pos, |a| + end) == FieldAt(b, pos, end)
    decreases end - pos
  {
    if pos < end {
      FieldShift(a, b, pos + 1, end);
    }
  }

  lemma {:induction false} EntryShift(a: seq<byte>, b: seq<byte>, p: nat)
    requires HasHeader(b, p)
    ensures EntryAt(a + b, |a| + p) == EntryAt(b, p) && NextPos(a + b, |a| + p) == |a| + NextPos(b, p)
  {
    FieldShift(a, b, p + 1, p + 9);
    FieldShift(a, b, p + 9, p + 17);
    FieldShift(a, b, p + 17, p + 21);
    assert (a + b)[|a| + p + HEADER_SIZE..] == b[p + HEADER_SIZE..];
  }

  lemma {:induction false} ParseShift(a: seq<byte>, b: seq<byte>, p: nat)
    ensures Parse(a + b, |a| + p) == Parse(b, p)
    decreases |b| - p
  {
    if HasHeader(b, p) {
      EntryShift(a, b, p);
      ParseShift(a, b, NextPos(b, p));
    }
  }

  /** Complete records, then whatever the rest reads as. */
  lemma {:induction false} KeptParses(kept: seq<Record>, rest: seq<byte>)
    requires AllSized(kept)
    ensures Parse(EncodeLog(kept) + rest, 0) == EntriesOf(kept) + Parse(rest, 0)
  {
    hide Parse, EntriesOf, EncodeLog;
    var extra := PartsParse(EncodeLog(kept) + rest, kept, rest);
    ParseShift(EncodeLog(kept), rest, 0);
  }

  lemma {:induction false} LogOnly(rs: seq<Record>)
    requires AllSized(rs)
    ensures Parse(EncodeLog(rs), 0) == EntriesOf(rs)
  {
    KeptParses(rs, []);
    assert EncodeLog(rs) + [] == EncodeLog(rs) && EntriesOf(rs) + [] == EntriesOf(rs);
  }

  /** Reading a log from the end of its first j records. */
  lemma {:induction false} LaterParses(rs: seq<Record>, j: nat)
    requires AllSized(rs) && j <= |rs|
    ensures Parse(EncodeLog(rs), LogLength(rs[..j])) == EntriesOf(rs[j..])
  {
    hide Parse, EntriesOf, EncodeLog, LogLength;
    EncodeSplit(rs[..j], rs[j..]);
    assert rs[..j] + rs[j..] == rs;
    ParseShift(EncodeLog(rs[..j]), EncodeLog(rs[j..]), 0);
    LogOnly(rs[j..]);
  }

  lemma {:induction false} EncodeSplit(a: seq<Record>, b: seq<Record>)
    ensures EncodeLog(a + b) == EncodeLog(a) + EncodeLog(b)
  {
    if a == [] {
      assert a + b == b;
    } else {
      assert (a + b)[1..] == a[1..] + b;
      EncodeSplit(a[1..], b);
    }
  }

  // ---- A torn record and what is appended behind it ----

  /** The first `cut` bytes of a record, then more. */
  ghost function Joined(r: Record, cut: nat, more: seq<byte>): seq<byte>
    requires cut <= RecordLength(r)
  {
    EncodeRecord(r)[..cut] + more
  }

  /** Which fields of the torn header survive: the kind always, the transaction id from nine bytes on, all of it
      when the header is complete. */
  lemma {:induction false} JoinedHeader(r: Record, cut: nat, more: seq<byte>)
    requires Sized(r) && 0 < cut < RecordLength(r) && cut + |more| >= HEADER_SIZE
    ensures var bytes := Joined(r, cut, more);
            && HasHeader(bytes, 0) && EntryAt(bytes, 0).kind == Kind(r)
            && (cut >= 9 ==> EntryAt(bytes, 0).txn == r.txn)
            && (cut >= HEADER_SIZE ==> NextPos(bytes, 0) == RecordLength(r))
            && (!r.Put? ==> NextPos(bytes, 0) == HEADER_SIZE)
            && NextPos(bytes, 0) >= cut
  {
    var bytes, whole := Joined(r, cut, more), EncodeRecord(r);
    assert bytes[0] == whole[0] == Kind(r);
    FieldWidths();
    if cut >= HEADER_SIZE {
      assert bytes[0..0 + HEADER_SIZE] == whole[..HEADER_SIZE] == Header(Kind(r), r.txn, KeyOf(r), |ValueOf(r)|);
      HeaderFields(bytes, 0, Kind(r), r.txn, KeyOf(r), |ValueOf(r)|);
    } else if cut >= 9 {
      assert bytes[1..1 + 8] == whole[1..9] == ToLE(r.txn, 8);
      RoundTrip(bytes, 1, r.txn, 8);
    }
  }

  /** The whole story of a torn tail: the reader makes one entry of it, of the torn record's kind, and goes on in
      the appended bytes at the distance that entry announces. */
  lemma {:induction false} JoinedParses(kept: seq<Record>, r: Record, cut: nat, more: seq<byte>)
    requires AllSized(kept) && Sized(r) && 0 < cut < RecordLength(r)
    ensures var bytes := Joined(r, cut, more);
            if cut + |more| < HEADER_SIZE then Parse(EncodeLog(kept) + bytes, 0) == EntriesOf(kept)
            else
              && HasHeader(bytes, 0) && NextPos(bytes, 0) >= cut
              && Parse(EncodeLog(kept) + bytes, 0) ==
                 EntriesOf(kept) + ([EntryAt(bytes, 0)] + Parse(more, NextPos(bytes, 0) - cut))
  {
    hide EntriesOf, EncodeLog, FieldAt, EntryAt, RecordLength;
    var bytes := Joined(r, cut, more);
    KeptParses(kept, bytes);
    if cut + |more| < HEADER_SIZE {
      assert EntriesOf(kept) + [] == EntriesOf(kept);
    } else {
      JoinedHeader(r, cut, more);
      ParseShift(EncodeRecord(r)[..cut], more, NextPos(bytes, 0) - cut);
    }
  }

  /** The distance announced by the torn record, from its last byte on. */
  ghost predicate GapEnds(r: Record, cut: nat, rs: seq<Record>, j: nat) {
    && 0 < cut < RecordLength(r) && j <= |rs|
    && HasHeader(Joined(r, cut, EncodeLog(rs)), 0)
    && NextPos(Joined(r, cut, EncodeLog(rs)), 0) == cut + LogLength(rs[..j])
  }

  /** A gap that ends between two appended records: exactly the ones behind it are met. */
  lemma {:induction false} MetBehindGap(kept: seq<Record>, r: Record, cut: nat, rs: seq<Record>, j: nat)
    requires AllSized(kept) && AllSized(rs) && Sized(r) && GapEnds(r, cut, rs, j)
    ensures var bytes := Joined(r, cut, EncodeLog(rs));
            Parse(EncodeLog(kept) + bytes, 0) == EntriesOf(kept) + ([EntryAt(bytes, 0)] + EntriesOf(rs[j..]))
  {
    hide Parse, EntriesOf, EncodeLog, LogLength, EntryAt, NextPos;
    JoinedParses(kept, r, cut, EncodeLog(rs));
    LaterParses(rs, j);
  }

  /** Torn inside the value, the gap is what the value still lacked. */
  lemma {:induction false} ValueGap(r: Record, cut: nat, rs: seq<Record>, j: nat)
    requires Sized(r) && HEADER_SIZE <= cut < RecordLength(r) && j <= |rs|
    ensures GapEnds(r, cut, rs, j) <==> LogLength(rs[..j]) == RecordLength(r) - cut
  {
    JoinedHeader(r, cut, EncodeLog(rs));
  }

  // ---- What is recovered ----

  lemma {:induction false} EntriesSplit(a: seq<Record>, b: seq<Record>)
    ensures EntriesOf(a + b) == EntriesOf(a) + EntriesOf(b)
  {
    if a == [] {
      assert a + b == b;
    } else {
      assert (a + b)[1..] == a[1..] + b;
      EntriesSplit(a[1..], b);
    }
  }

  lemma {:induction false} AnalyzeSplit(xs: seq<Entry>, ys: seq<Entry>, a: Analysis)
    ensures Analyze(xs + ys, a) == Analyze(ys, Analyze(xs, a))
  {
    if xs == [] {
      assert xs + ys == ys;
    } else {
      assert (xs + ys)[1..] == xs[1..] + ys;
      AnalyzeSplit(xs[1..], ys, AnalyzeOne(xs[0], a));
    }
  }

  lemma {:induction false} RedoSplit(xs: seq<Entry>, ys: seq<Entry>, c: set<nat>, table: map<nat, Chain>)
    ensures Redo(xs + ys, c, table) == Redo(ys, c, Redo(xs, c, table))
  {
    if xs == [] {
      assert xs + ys == ys;
    } else {
      assert (xs + ys)[1..] == xs[1..] + ys;
      RedoSplit(xs[1..], ys, c, RedoOne(xs[0], c, table));
    }
  }

  /** The highest id does not matter for what counts as committed. */
  lemma {:induction false} CommittedOnly(es: seq<Entry>, a: Analysis, b: Analysis)
    requires a.committed == b.committed
    ensures Analyze(es, a).committed == Analyze(es, b).committed
    decreases |es|
  {
    if es != [] {
      CommittedOnly(es[1..], AnalyzeOne(es[0], a), AnalyzeOne(es[0], b));
    }
  }

  /** An entry that neither commits nor belongs to a committed transaction might as well be missing. */
  lemma {:induction false} IdleEntry(xs: seq<Entry>, d: Entry, ys: seq<Entry>, c: set<nat>)
    requires d.kind != 2 && c == Analyze(xs + ys, Analysis({}, 0)).committed && (d.kind == 1 ==> d.txn !in c)
    ensures Analyze(xs + ([d] + ys), Analysis({}, 0)).committed == c
    ensures Redo(xs + ([d] + ys), c, map[]) == Redo(xs + ys, c, map[])
  {
    var start := Analysis({}, 0);
    var a := Analyze(xs, start);
    assert ([d] + ys)[1..] == ys;
    AnalyzeSplit(xs, [d] + ys, start);
    AnalyzeSplit(xs, ys, start);
    CommittedOnly(ys, AnalyzeOne(d, a), a);
    RedoSplit(xs, [d] + ys, c, map[]);
    RedoSplit(xs, ys, c, map[]);
  }

  /** Recovery of the records one by one, in the order the reader meets them. */
  lemma {:induction false} RecoverMet(rs: seq<Record>, c: set<nat>, table: map<nat, Chain>)
    requires c == Analyze(EntriesOf(rs), Analysis({}, 0)).committed && table == Redo(EntriesOf(rs), c, map[])
    ensures c == Committed(rs) && forall k: nat :: KeyHolds(table, k, LastPut(rs, k, c), c)
  {
    AnalyzedCommitted(rs);
    forall k: nat ensures KeyHolds(table, k, LastPut(rs, k, c), c) {
      RedoMeaning(rs, c, k);
    }
  }

  /** The record an entry is taken for: whatever is neither a put nor a commit is skipped like an abort. */
  ghost function RecordOf(e: Entry): Record {
    if e.kind == 1 then Put(e.txn, e.key, e.value) else if e.kind == 2 then Commit(e.txn) else Abort(e.txn)
  }

  ghost function RecordsOf(es: seq<Entry>): (rs: seq<Record>)
    ensures |rs| == |es|
  {
    if es == [] then [] else [RecordOf(es[0])] + RecordsOf(es[1..])
  }

  lemma {:induction false} RecordsSplit(xs: seq<Entry>, ys: seq<Entry>)
    ensures RecordsOf(xs + ys) == RecordsOf(xs) + RecordsOf(ys)
  {
    if xs == [] {
      assert xs + ys == ys;
    } else {
      assert (xs + ys)[1..] == xs[1..] + ys;
      RecordsSplit(xs[1..], ys);
    }
  }

  lemma {:induction false} RecordsBack(rs: seq<Record>)
    ensures RecordsOf(EntriesOf(rs)) == rs
  {
    if rs != [] {
      RecordsBack(rs[1..]);
      assert EntriesOf(rs)[1..] == EntriesOf(rs[1..]);
    }
  }

  /** Both passes treat an entry as the record it is taken for. */
  lemma {:induction false} TakenFor(es: seq<Entry>, a: Analysis, c: set<nat>, table: map<nat, Chain>)
    ensures Analyze(es, a) == Analyze(EntriesOf(RecordsOf(es)), a)
    ensures Redo(es, c, table) == Redo(EntriesOf(RecordsOf(es)), c, table)
    decreases |es|
  {
    if es != [] {
      var e := EntryOf(RecordOf(es[0]));
      var rest := EntriesOf(RecordsOf(es[1..]));
      assert RecordsOf(es)[1..] == RecordsOf(es[1..]);
      assert EntriesOf(RecordsOf(es)) == [e] + rest && ([e] + rest)[1..] == rest;
      TakenFor(es[1..], AnalyzeOne(es[0], a), c, RedoOne(es[0], c, table));
    }
  }

  /** The next id is one above the largest id met. */
  lemma {:induction false} LargestId(rs: seq<Record>, a: Analysis)
    ensures var m := Analyze(EntriesOf(rs), a).maxTxn;
            m == a.maxTxn || exists i :: 0 <= i < |rs| && rs[i].txn == m
  {
    if rs != [] {
      LargestId(rs[1..], AnalyzeOne(EntryOf(rs[0]), a));
      assert EntriesOf(rs)[1..] == EntriesOf(rs[1..]);
      assert forall i :: 0 <= i < |rs[1..]| ==> rs[1..][i] == rs[i + 1];
    }
  }

  /** Some record carries an id of at least t. */
  ghost predicate Reaches(rs: seq<Record>, t: nat) { exists i :: 0 <= i < |rs| && rs[i].txn >= t }

  /** Recovery of any file: the table is that of the records the file is taken for, and the ids given out next are
      those above all of theirs. */
  lemma {:induction false} RecoverAny(file: seq<byte>, rs: seq<Record>, rec: Recovered)
    requires rs == RecordsOf(Parse(file, 0)) && rec == Recovery(file)
    ensures forall k: nat :: KeyHolds(rec.table, k, LastPut(rs, k, Committed(rs)), Committed(rs))
    ensures forall t: nat :: t < rec.next <==> t == 0 || Reaches(rs, t)
  {
    hide Parse, RecordsOf, EntriesOf, LastPut, KeyHolds, Committed;
    var es, start := Parse(file, 0), Analysis({}, 0);
    var c := Analyze(es, start).committed;
    TakenFor(es, start, c, map[]);
    RecoverMet(rs, c, rec.table);
    AnalyzeMeaning(rs, start);
    LargestId(rs, start);
  }

  /** Recovery behind a torn record, wherever it was torn and whatever was appended: besides the kept records it
      takes the torn record, completed by appended bytes, and then what the appended bytes read as behind it. */
  lemma {:induction false} RecoverTorn(kept: seq<Record>, r: Record, cut: nat, more: seq<byte>, met: seq<Record>,
                                       rec: Recovered)
    requires AllSized(kept) && Sized(r) && 0 < cut < RecordLength(r)
    requires rec == Recovery(EncodeLog(kept) + Joined(r, cut, more))
    requires met == if cut + |more| < HEADER_SIZE then kept else kept + MetFrom(r, cut, more)
    ensures forall k: nat :: KeyHolds(rec.table, k, LastPut(met, k, Committed(met)), Committed(met))
    ensures forall t: nat :: t < rec.next <==> t == 0 || Reaches(met, t)
  {
    hide Parse, LastPut, KeyHolds, Committed, Recovery, EntryAt, NextPos, RecordsOf, EntriesOf;
    var bytes := Joined(r, cut, more);
    JoinedParses(kept, r, cut, more);
    RecordsBack(kept);
    if cut + |more| >= HEADER_SIZE {
      JoinedHeader(r, cut, more);
      var rest := Parse(more, NextPos(bytes, 0) - cut);
      RecordsSplit(EntriesOf(kept), [EntryAt(bytes, 0)] + rest);
      RecordsSplit([EntryAt(bytes, 0)], rest);
      OneRecord(EntryAt(bytes, 0));
    }
    RecoverAny(EncodeLog(kept) + bytes, met, rec);
  }

  lemma {:induction false} OneRecord(e: Entry)
    ensures RecordsOf([e]) == [RecordOf(e)]
  {
    assert [e][1..] == [];
  }

  /** What the reader takes the torn record and the appended bytes for. */
  ghost function MetFrom(r: Record, cut: nat, more: seq<byte>): seq<Record>
    requires Sized(r) && 0 < cut < RecordLength(r) && cut + |more| >= HEADER_SIZE
  {
    var bytes := Joined(r, cut, more);
    JoinedHeader(r, cut, more);
    [RecordOf(EntryAt(bytes, 0))] + RecordsOf(Parse(more, NextPos(bytes, 0) - cut))
  }

  /** A gap that ends between two appended records: recovery holds exactly what the kept records, the torn put as
      completed by appended bytes, and the appended records behind the gap say. Appended records inside the gap are
      gone, and with them every transaction whose commit record was there. */
  lemma {:induction false} RecoverBehindGap(kept: seq<Record>, r: Record, cut: nat, rs: seq<Record>, j: nat,
                                            met: seq<Record>, rec: Recovered)
    requires AllSized(kept) && AllSized(rs) && Sized(r) && GapEnds(r, cut, rs, j)
    requires met == kept + ([RecordOf(EntryAt(Joined(r, cut, EncodeLog(rs)), 0))] + rs[j..])
    requires rec == Recovery(EncodeLog(kept) + Joined(r, cut, EncodeLog(rs)))
    ensures forall k: nat :: KeyHolds(rec.table, k, LastPut(met, k, Committed(met)), Committed(met))
    ensures forall t: nat :: t < rec.next <==> t == 0 || Reaches(met, t)
  {
    hide Parse, LastPut, KeyHolds, Committed, Recovery, EntryAt, NextPos, RecordsOf, EntriesOf, LogLength, Reaches;
    JoinedHeader(r, cut, EncodeLog(rs));
    LaterParses(rs, j);
    RecordsBack(rs[j..]);
    RecoverTorn(kept, r, cut, EncodeLog(rs), met, rec);
  }

  /** When no transaction met has the id read from the torn put, the put itself has no effect. */
  lemma {:induction false} RecoverWithoutTorn(kept: seq<Record>, r: Record, cut: nat, rs: seq<Record>, j: nat,
                                              met: seq<Record>, rec: Recovered)
    requires AllSized(kept) && AllSized(rs) && Sized(r) && r.Put? && GapEnds(r, cut, rs, j)
    requires met == kept + rs[j..] && EntryAt(Joined(r, cut, EncodeLog(rs)), 0).txn !in Committed(met)
    requires rec == Recovery(EncodeLog(kept) + Joined(r, cut, EncodeLog(rs)))
    ensures forall k: nat :: KeyHolds(rec.table, k, LastPut(met, k, Committed(met)), Committed(met))
  {
    hide Parse, EntryAt, LastPut, Redo, Analyze, NextPos;
    var bytes := Joined(r, cut, EncodeLog(rs));
    var xs, ys := EntriesOf(kept), EntriesOf(rs[j..]);
    MetBehindGap(kept, r, cut, rs, j);
    JoinedHeader(r, cut, EncodeLog(rs));
    EntriesSplit(kept, rs[j..]);
    var c := Analyze(xs + ys, Analysis({}, 0)).committed;
    RecoverMet(met, c, Redo(xs + ys, c, map[]));
    IdleEntry(xs, EntryAt(bytes, 0), ys, c);
  }

  /** Torn inside its value, a put keeps its id, and the gap is what the value still lacked. */
  lemma {:induction false} RecoverBehindValue(kept: seq<Record>, r: Record, cut: nat, rs: seq<Record>, j: nat,
                                              met: seq<Record>, rec: Recovered)
    requires AllSized(kept) && AllSized(rs) && Sized(r) && HEADER_SIZE <= cut < RecordLength(r) && j <= |rs|
    requires LogLength(rs[..j]) == RecordLength(r) - cut
    requires met == kept + rs[j..] && r.txn !in Committed(met)
    requires rec == Recovery(EncodeLog(kept) + Joined(r, cut, EncodeLog(rs)))
    ensures forall k: nat :: KeyHolds(rec.table, k, LastPut(met, k, Committed(met)), Committed(met))
  {
    hide Parse, LastPut, KeyHolds, Committed, Recovery, EntryAt, NextPos, Joined, EncodeLog, LogLength;
    ValueGap(r, cut, rs, j);
    JoinedHeader(r, cut, EncodeLog(rs));
    RecoverWithoutTorn(kept, r, cut, rs, j, met, rec);
  }

  /** Which ids are given out again after a crash: the id of a torn record is safe exactly when its header is
      complete, or a complete record has an id as high. */
  lemma {:induction false} TornIdReused(kept: seq<Record>, r: Record, cut: nat)
    requires AllSized(kept) && Sized(r) && 0 < cut < RecordLength(r)
    ensures Recovery(EncodeLog(kept) + EncodeRecord(r)[..cut]).next > r.txn <==>
            cut >= HEADER_SIZE || r.txn == 0 || Reaches(kept, r.txn)
  {
    hide Recovery, EncodeLog, EncodeRecord, Reaches;
    NextIdTorn(kept, r, cut, Recovery(EncodeLog(kept) + EncodeRecord(r)[..cut]));
    ReachesLast(kept, r, r.txn);
  }

  /** How many records have their header within the first n bytes of the log. */
  ghost function HeadersIn(rs: seq<Record>, n: nat): (m: nat)
    ensures m <= |rs|
  {
    if rs == [] || n < HEADER_SIZE then 0
    else if n < RecordLength(rs[0]) then 1
    else 1 + HeadersIn(rs[1..], n - RecordLength(rs[0]))
  }

  lemma {:induction false} HeadersOfCut(rs: seq<Record>, n: nat)
    ensures var m := CompleteIn(rs, n);
            && LogLength(rs[..m]) <= n
            && HeadersIn(rs, n) == m + if m < |rs| && n - LogLength(rs[..m]) >= HEADER_SIZE then 1 else 0
  {
    if rs != [] && n >= RecordLength(rs[0]) {
      var m := CompleteIn(rs[1..], n - RecordLength(rs[0]));
      HeadersOfCut(rs[1..], n - RecordLength(rs[0]));
      assert rs[..m + 1][1..] == rs[1..][..m];
    }
  }

  /** A log cut at any byte: the ids given out next are those above every id whose header is complete in it. The id
      of a record torn inside its header may be given out again. */
  lemma {:induction false} NextIdAfterCut(rs: seq<Record>, n: nat, rec: Recovered)
    requires AllSized(rs) && n <= |EncodeLog(rs)| && rec == Recovery(EncodeLog(rs)[..n])
    ensures forall t: nat :: t < rec.next <==> t == 0 || Reaches(rs[..HeadersIn(rs, n)], t)
  {
    hide Recovery, EncodeLog, EncodeRecord, KeyHolds, LastPut, Parse, CompleteIn, HeadersIn, Reaches, LogLength;
    var m := CompleteIn(rs, n);
    var tail := CutLog(rs, n);
    var kept := rs[..m];
    HeadersOfCut(rs, n);
    assert n == LogLength(kept) + |tail|;
    if tail == [] {
      WholeNext(kept, rec);
    } else {
      NextIdTorn(kept, rs[m], |tail|, rec);
      assert rs[..m + 1] == kept + [rs[m]];
    }
  }

  lemma {:induction false} WholeNext(kept: seq<Record>, rec: Recovered)
    requires AllSized(kept) && rec == Recovery(EncodeLog(kept) + [])
    ensures forall t: nat :: t < rec.next <==> t == 0 || Reaches(kept, t)
  {
    hide Parse, EntriesOf, EncodeLog, RecordsOf, Recovery;
    assert EncodeLog(kept) + [] == EncodeLog(kept);
    LogOnly(kept);
    RecordsBack(kept);
    RecoverAny(EncodeLog(kept), kept, rec);
  }

  lemma {:induction false} NextIdTorn(kept: seq<Record>, r: Record, cut: nat, rec: Recovered)
    requires AllSized(kept) && Sized(r) && 0 < cut < RecordLength(r)
    requires rec == Recovery(EncodeLog(kept) + EncodeRecord(r)[..cut])
    ensures var seen := if cut < HEADER_SIZE then kept else kept + [r];
            forall t: nat :: t < rec.next <==> t == 0 || Reaches(seen, t)
  {
    hide Recovery, EncodeLog, EncodeRecord, KeyHolds, LastPut;
    var met := if cut < HEADER_SIZE then kept else kept + MetFrom(r, cut, []);
    assert Joined(r, cut, []) == EncodeRecord(r)[..cut];
    RecoverTorn(kept, r, cut, [], met, rec);
    if cut >= HEADER_SIZE {
      JoinedHeader(r, cut, []);
      var last := RecordOf(EntryAt(Joined(r, cut, []), 0));
      assert Parse([], NextPos(Joined(r, cut, []), 0) - cut) == [];
      assert met == kept + [last];
      forall t: nat ensures Reaches(met, t) <==> Reaches(kept + [r], t) {
        ReachesLast(kept, last, t);
        ReachesLast(kept, r, t);
      }
    }
  }

  lemma {:induction false} ReachesLast(kept: seq<Record>, r: Record, t: nat)
    ensures Reaches(kept + [r], t) <==> Reaches(kept, t) || r.txn >= t
  {
    var all := kept + [r];
    assert all[|kept|] == r && forall i :: 0 <= i < |kept| ==> all[i] == kept[i];
  }

  /** When everything appended fits into the gap, all of it is lost. */
  lemma {:induction false} TornTailSwallows(kept: seq<Record>, r: Record, cut: nat, more: seq<byte>)
    requires AllSized(kept) && Sized(r) && r.txn !in Committed(kept)
    requires HEADER_SIZE <= cut < RecordLength(r) && cut + |more| <= RecordLength(r)
    ensures Recovery(EncodeLog(kept) + Joined(r, cut, more)).table == Recovery(EncodeLog(kept)).table
  {
    var bytes := Joined(r, cut, more);
    var xs := EntriesOf(kept);
    JoinedHeader(r, cut, more);
    JoinedParses(kept, r, cut, more);
    LogOnly(kept);
    AnalyzedCommitted(kept);
    assert xs + [] == xs && [EntryAt(bytes, 0)] + [] == [EntryAt(bytes, 0)];
    IdleEntry(xs, EntryAt(bytes, 0), [], Committed(kept));
  }

  /** A commit record torn behind its transaction id commits nothing when the log is first recovered. As soon as
      something is appended, the next recovery takes it for a commit. */
  lemma {:induction false} TornCommitRevives(kept: seq<Record>, t: nat, cut: nat, more: seq<byte>)
    requires AllSized(kept) && Sized(Commit(t)) && 9 <= cut < HEADER_SIZE && cut + |more| >= HEADER_SIZE
    requires t !in Committed(kept)
    ensures t !in Analyze(Parse(EncodeLog(kept) + Joined(Commit(t), cut, []), 0), Analysis({}, 0)).committed
    ensures t in Analyze(Parse(EncodeLog(kept) + Joined(Commit(t), cut, more), 0), Analysis({}, 0)).committed
  {
    hide Parse, EntriesOf, EncodeLog, Joined, EntryAt, NextPos, Committed;
    AnalyzedCommitted(kept);
    JoinedParses(kept, Commit(t), cut, []);
    JoinedParses(kept, Commit(t), cut, more);
    JoinedHeader(Commit(t), cut, more);
    var d := EntryAt(Joined(Commit(t), cut, more), 0);
    var rest := Parse(more, HEADER_SIZE - cut);
    AnalyzeSplit(EntriesOf(kept), [d] + rest, Analysis({}, 0));
    assert ([d] + rest)[1..] == rest;
    StaysCommitted(rest, AnalyzeOne(d, Analyze(EntriesOf(kept), Analysis({}, 0))), t);
  }

  lemma {:induction false} StaysCommitted(es: seq<Entry>, a: Analysis, t: nat)
    requires t in a.committed
    ensures t in Analyze(es, a).committed
    decreases |es|
  {
    if es != [] {
      StaysCommitted(es[1..], AnalyzeOne(es[0], a), t);
    }
  }

  /** A log that ends with a complete record: everything appended counts. */
  lemma {:induction false} CleanTailKeeps(kept: seq<Record>, rs: seq<Record>, all: seq<Record>, rec: Recovered)
    requires AllSized(kept) && AllSized(rs) && all == kept + rs
    requires rec == Recovery(EncodeLog(kept) + EncodeLog(rs))
    ensures forall k: nat :: KeyHolds(rec.table, k, LastPut(all, k, Committed(all)), Committed(all))
  {
    KeptParses(kept, EncodeLog(rs));
    LogOnly(rs);
    EntriesSplit(kept, rs);
    RecoverMet(all, Analyze(EntriesOf(all), Analysis({}, 0)).committed, rec.table);
  }

  // ---- Exactly when everything appended is met ----

  /** A field smaller than its upper half can hold has zeros there. */
  lemma {:induction false} SmallField(b: seq<byte>, pos: nat)
    requires pos + 8 <= |b| && FieldAt(b, pos, pos + 8) < Pow256(4)
    ensures b[pos + 4] == 0 && b[pos + 5] == 0 && b[pos + 6] == 0 && b[pos + 7] == 0
  {
    FieldWidths();
    assert FieldAt(b, pos, pos + 8) >= 256 * FieldAt(b, pos + 1, pos + 8);
    assert FieldAt(b, pos + 1, pos + 8) >= 256 * FieldAt(b, pos + 2, pos + 8);
    assert FieldAt(b, pos + 2, pos + 8) >= 256 * FieldAt(b, pos + 3, pos + 8);
    assert FieldAt(b, pos + 3, pos + 8) >= 256 * FieldAt(b, pos + 4, pos + 8);
    assert FieldAt(b, pos + 4, pos + 8) == 0;
    ZeroField(b, pos + 4, pos + 8);
  }

  lemma {:induction false} ZeroField(b: seq<byte>, pos: nat, end: nat)
    requires pos <= end <= |b| && FieldAt(b, pos, end) == 0
    ensures forall i :: pos <= i < end ==> b[i] == 0
    decreases end - pos
  {
    if pos < end {
      ZeroField(b, pos + 1, end);
    }
  }

  /** Two fields of one width that read the same have the same bytes. */
  lemma {:induction false} FieldBytes(a: seq<byte>, b: seq<byte>, p: nat, end: nat)
    requires p <= end <= |a| && end <= |b| && FieldAt(a, p, end) == FieldAt(b, p, end)
    ensures forall i :: p <= i < end ==> a[i] == b[i]
    decreases end - p
  {
    if p < end {
      assert a[p] == b[p] && FieldAt(a, p + 1, end) == FieldAt(b, p + 1, end);
      FieldBytes(a, b, p + 1, end);
    }
  }

  /** Fewer than nine torn bytes before a record with a small id never read as that record. */
  lemma {:induction false} ShortTear(b: seq<byte>, e: seq<byte>, c: nat)
    requires 0 < c < 9 && |e| >= 9 && |b| >= 9 + c && b[c..c + 9] == e[..9]
    requires b[0] == e[0] != 0 && FieldAt(e, 1, 9) < Pow256(4)
    ensures FieldAt(b, 1, 9) != FieldAt(e, 1, 9)
  {
    if FieldAt(b, 1, 9) == FieldAt(e, 1, 9) {
      FieldBytes(b, e, 1, 9);
      SmallField(e, 1);
      forall i | c <= i < 9 ensures e[i] == e[i - c] {
        assert b[c..c + 9][i - c] == e[..9][i - c];
      }
      assert false;
    }
  }

  /** The bytes start like record r, as far as a reader looks: of commits and aborts it reads nine bytes only. */
  ghost predicate LooksLike(b: seq<byte>, r: Record) {
    && |b| >= RecordLength(r) && b[..9] == EncodeRecord(r)[..9]
    && (r.Put? ==> b[..RecordLength(r)] == EncodeRecord(r))
  }

  /** The bytes start with the records, as far as a reader looks. */
  ghost predicate Mirrors(b: seq<byte>, rs: seq<Record>)
    decreases |rs|
  {
    rs == [] || (LooksLike(b, rs[0]) && Mirrors(b[RecordLength(rs[0])..], rs[1..]))
  }

  lemma {:induction false} HeadersAlike(b: seq<byte>, e: seq<byte>, end: nat)
    requires 9 <= end <= |b| && end <= |e| && b[0] == e[0] && FieldAt(b, 1, 9) == FieldAt(e, 1, 9)
    requires end == 9 || (end == HEADER_SIZE && FieldAt(b, 9, 17) == FieldAt(e, 9, 17)
                          && FieldAt(b, 17, 21) == FieldAt(e, 17, 21))
    ensures b[..end] == e[..end]
  {
    hide FieldAt;
    FieldBytes(b, e, 1, 9);
    if end == HEADER_SIZE {
      FieldBytes(b, e, 9, 17);
      FieldBytes(b, e, 17, 21);
    }
    assert forall i :: 0 <= i < end ==> b[i] == e[i];
  }

  lemma {:induction false} EncodedFields(r: Record, e: seq<byte>)
    requires Sized(r) && e == EncodeRecord(r)
    ensures |e| == RecordLength(r) && e[0] == Kind(r) && FieldAt(e, 1, 9) == r.txn
    ensures r.Put? ==> FieldAt(e, 9, 17) == r.key && FieldAt(e, 17, 21) == |r.value|
    ensures r.Put? ==> e == e[..HEADER_SIZE] + r.value
  {
    FieldWidths();
    assert e[0..0 + HEADER_SIZE] == Header(Kind(r), r.txn, KeyOf(r), |ValueOf(r)|);
    HeaderFields(e, 0, Kind(r), r.txn, KeyOf(r), |ValueOf(r)|);
  }

  /** Reading the record is seeing its bytes. */
  lemma {:induction false} ReadsOne(b: seq<byte>, r: Record)
    requires Sized(r) && |b| >= RecordLength(r)
    ensures EntryAt(b, 0) == EntryOf(r) <==> LooksLike(b, r)
    ensures EntryAt(b, 0) == EntryOf(r) ==> NextPos(b, 0) == RecordLength(r)
  {
    hide EncodeRecord, FieldAt;
    var e := EncodeRecord(r);
    EncodedFields(r, e);
    if EntryAt(b, 0) == EntryOf(r) {
      SeenAlike(b, r, e);
    }
    if LooksLike(b, r) {
      if r.Put? {
        assert b[0..0 + RecordLength(r)] == e;
        RecordEntry(b, 0, r);
      } else {
        assert b[0] == b[..9][0] == e[..9][0];
        SameField(b, e, 1, 9);
      }
    }
  }

  lemma {:induction false} SeenAlike(b: seq<byte>, r: Record, e: seq<byte>)
    requires Sized(r) && |b| >= RecordLength(r) && EntryAt(b, 0) == EntryOf(r)
    requires e == EncodeRecord(r) && e[0] == Kind(r) && FieldAt(e, 1, 9) == r.txn
    requires r.Put? ==> FieldAt(e, 9, 17) == r.key && FieldAt(e, 17, 21) == |r.value| && e == e[..HEADER_SIZE] + r.value
    ensures LooksLike(b, r) && NextPos(b, 0) == RecordLength(r)
  {
    hide EncodeRecord, FieldAt;
    HeadersAlike(b, e, 9);
    if r.Put? {
      assert |ValueAt(b, 0)| == SizeAt(b, 0);
      HeadersAlike(b, e, HEADER_SIZE);
      assert b[..RecordLength(r)] == b[..HEADER_SIZE] + b[HEADER_SIZE..][..|r.value|];
    }
  }

  lemma {:induction false} SameField(a: seq<byte>, b: seq<byte>, p: nat, end: nat)
    requires p <= end <= |a| && end <= |b| && a[..end] == b[..end]
    ensures FieldAt(a, p, end) == FieldAt(b, p, end)
    decreases end - p
  {
    if p < end {
      assert a[p] == a[..end][p] == b[..end][p];
      SameField(a, b, p + 1, end);
    }
  }

  /** A file reads as exactly the given records when, as far as a reader looks, it holds their bytes and then less
      than a header. */
  lemma {:induction false} ReadsExactly(b: seq<byte>, rs: seq<Record>)
    requires AllSized(rs) && |b| >= LogLength(rs)
    ensures Parse(b, 0) == EntriesOf(rs) <==> Mirrors(b, rs) && |b| < LogLength(rs) + HEADER_SIZE
    decreases |rs|
  {
    hide EncodeRecord, EntryAt, FieldAt, LooksLike;
    if rs != [] {
      var n := RecordLength(rs[0]);
      ReadsOne(b, rs[0]);
      ReadsExactly(b[n..], rs[1..]);
      assert b[..n] + b[n..] == b;
      ParseShift(b[..n], b[n..], 0);
      if EntryAt(b, 0) == EntryOf(rs[0]) {
        assert Parse(b, 0) == [EntryOf(rs[0])] + Parse(b[n..], 0);
        SameTails(EntryOf(rs[0]), Parse(b[n..], 0), EntriesOf(rs[1..]));
      } else {
        assert Parse(b, 0)[0] != EntriesOf(rs)[0];
      }
    }
  }

  lemma {:induction false} SameTails(e: Entry, xs: seq<Entry>, ys: seq<Entry>)
    ensures [e] + xs == [e] + ys <==> xs == ys
  {
    assert ([e] + xs)[1..] == xs && ([e] + ys)[1..] == ys;
  }

  /** The records appended to a log are all met, and nothing besides, exactly when the log ended with a complete
      record, or the torn bytes and the log behind them repeat the log's own bytes. */
  lemma {:induction false} AllMetIff(kept: seq<Record>, r: Record, cut: nat, rs: seq<Record>)
    requires AllSized(kept) && AllSized(rs) && Sized(r) && cut < RecordLength(r)
    ensures Parse(EncodeLog(kept) + Joined(r, cut, EncodeLog(rs)), 0) == EntriesOf(kept) + EntriesOf(rs)
            <==> cut == 0 || (cut < HEADER_SIZE && Mirrors(Joined(r, cut, EncodeLog(rs)), rs))
  {
    hide Parse, EntriesOf, EncodeRecord, Mirrors, LogLength;
    var b := Joined(r, cut, EncodeLog(rs));
    KeptParses(kept, b);
    SamePrefix(EntriesOf(kept), Parse(b, 0), EntriesOf(rs));
    ReadsExactly(b, rs);
    if cut == 0 {
      assert b == EncodeLog(rs);
      LogOnly(rs);
    }
  }

  lemma {:induction false} SamePrefix(xs: seq<Entry>, ys: seq<Entry>, zs: seq<Entry>)
    ensures xs + ys == xs + zs <==> ys == zs
  {
    assert (xs + ys)[|xs|..] == ys && (xs + zs)[|xs|..] == zs;
  }

  /** With an appended transaction that has an id of its own, of at most four bytes, no such repetition is possible. */
  lemma {:induction false} OwnIdMetIff(kept: seq<Record>, r: Record, cut: nat, rs: seq<Record>)
    requires AllSized(kept) && AllSized(rs) && Sized(r) && cut < RecordLength(r)
    requires rs != [] && rs[0].txn != r.txn && rs[0].txn < Pow256(4)
    ensures Parse(EncodeLog(kept) + Joined(r, cut, EncodeLog(rs)), 0) == EntriesOf(kept) + EntriesOf(rs)
            <==> cut == 0
  {
    hide Parse, EntryAt, RecordLength;
    var more := EncodeLog(rs);
    if cut == 0 {
      assert Joined(r, cut, more) == more;
      KeptParses(kept, more);
      LogOnly(rs);
    } else {
      JoinedParses(kept, r, cut, more);
      FirstDiffers(r, cut, rs);
      var bytes := Joined(r, cut, more);
      var ys := [EntryAt(bytes, 0)] + Parse(more, NextPos(bytes, 0) - cut);
      DifferentTails(EntriesOf(kept), ys, EntriesOf(rs));
    }
  }

  lemma {:induction false} DifferentTails(xs: seq<Entry>, ys: seq<Entry>, zs: seq<Entry>)
    requires ys != [] && zs != [] && ys[0] != zs[0]
    ensures xs + ys != xs + zs
  {
    assert (xs + ys)[|xs|] != (xs + zs)[|xs|];
  }

  lemma {:induction false} LogStart(rs: seq<Record>)
    requires AllSized(rs) && rs != []
    ensures var e := EncodeLog(rs);
            |e| >= HEADER_SIZE && e[0] == Kind(rs[0]) && FieldAt(e, 1, 9) == rs[0].txn
  {
    var e := EncodeLog(rs);
    var whole := EncodeRecord(rs[0]);
    assert e[1..9] == whole[1..9] == ToLE(rs[0].txn, 8);
    RoundTrip(e, 1, rs[0].txn, 8);
  }

  lemma {:induction false} FirstDiffers(r: Record, cut: nat, rs: seq<Record>)
    requires AllSized(rs) && Sized(r) && 0 < cut < RecordLength(r)
    requires rs != [] && rs[0].txn != r.txn && rs[0].txn < Pow256(4)
    ensures var bytes := Joined(r, cut, EncodeLog(rs));
            HasHeader(bytes, 0) && EntryAt(bytes, 0) != EntryOf(rs[0])
  {
    hide EncodeLog, EncodeRecord, FieldAt, Pow256, RecordLength;
    var e := EncodeLog(rs);
    var bytes := Joined(r, cut, e);
    LogStart(rs);
    JoinedHeader(r, cut, e);
    if cut < 9 && bytes[0] == e[0] {
      assert bytes[cut..cut + 9] == e[..9];
      ShortTear(bytes, e, cut);
    }
  }

  /** A repetition that needs no long id: a commit record torn behind its id and then written once more reads as
      if nothing had been torn. */
  lemma {:induction false} TornTwin(kept: seq<Record>, t: nat, cut: nat)
    requires AllSized(kept) && Sized(Commit(t)) && 9 <= cut < HEADER_SIZE
    ensures Parse(EncodeLog(kept) + Joined(Commit(t), cut, EncodeLog([Commit(t)])), 0) ==
            EntriesOf(kept) + EntriesOf([Commit(t)])
  {
    hide EncodeRecord;
    var more := EncodeLog([Commit(t)]);
    assert [Commit(t)][1..] == [];
    JoinedHeader(Commit(t), cut, more);
    JoinedParses(kept, Commit(t), cut, more);
    assert Parse(more, HEADER_SIZE - cut) == [];
  }

  // ---- Two torn logs ----

  /** A first put of 43 zero bytes is torn behind its header. The next transaction puts and commits, in 43 bytes of
      log: the gap swallows it. In a log that was not torn it is recovered. */
  method SwallowedCommit() returns (torn: map<nat, Chain>, clean: map<nat, Chain>)
    ensures torn == map[]
    ensures clean == map[7 := Version(2, [9], Nil)]
  {
    var r := Put(1, 7, seq(43, _ => 0));
    var rs := [Put(2, 7, [9]), Commit(2)];
    var next;
    SwallowedExample(r, rs);
    torn, next := RecoverFromWal(EncodeRecord(r)[..HEADER_SIZE] + EncodeLog(rs));
    clean, next := RecoverFromWal(EncodeLog(rs));
  }

  lemma {:induction false} SwallowedExample(r: Record, rs: seq<Record>)
    requires r == Put(1, 7, seq(43, _ => 0)) && rs == [Put(2, 7, [9]), Commit(2)]
    ensures Recovery(EncodeRecord(r)[..HEADER_SIZE] + EncodeLog(rs)).table == map[]
    ensures Recovery(EncodeLog(rs)).table == map[7 := Version(2, [9], Nil)]
  {
    hide Parse, EntryAt, EncodeRecord;
    FieldWidths();
    assert rs[1..] == [Commit(2)] && rs[1..][1..] == [];
    var more := EncodeLog(rs);
    assert LogLength([Commit(2)]) == 21 && LogLength(rs) == 22 + LogLength(rs[1..]);
    TornTailSwallows([], r, HEADER_SIZE, more);
    assert EncodeLog([]) + Joined(r, HEADER_SIZE, more) == EncodeRecord(r)[..HEADER_SIZE] + more;
    assert EncodeLog([]) == [];
    LogOnly([]);
    LogOnly(rs);
    var es := EntriesOf(rs);
    assert EntriesOf([Commit(2)]) == [Entry(2, 2, 0, [])];
    assert es == [Entry(1, 2, 7, [9]), Entry(2, 2, 0, [])];
    assert es[1..] == [Entry(2, 2, 0, [])] && es[1..][1..] == [];
    var a := Analyze(es, Analysis({}, 0));
    assert Analyze(es[1..], Analysis({}, 2)).committed == {2};
    assert Redo(es[1..], {2}, map[7 := Version(2, [9], Nil)]) == map[7 := Version(2, [9], Nil)];
    assert Redo(es, {2}, map[]) == map[7 := Version(2, [9], Nil)];
  }

  /** A put of transaction 1 is torn inside its header. The first recovery does not see it and gives out id 1 again.
      The new transaction 1 puts key 7 and commits. The second recovery finds no key 7, but the torn put of key 9,
      with a value of 257 bytes that nobody wrote. */
  method TornPutCommitted(v: Value) returns (next: nat, table: map<nat, Chain>)
    requires |v| == 240
    ensures next == 1 && table.Keys == {9} && table[9].Version? && |table[9].val| == 257
  {
    var r := Put(1, 9, [5]);
    var rs := [Put(1, 7, v), Commit(1)];
    var again;
    RevivedExample(r, rs, v);
    table, next := RecoverFromWal(EncodeRecord(r)[..17]);
    table, again := RecoverFromWal(EncodeRecord(r)[..17] + EncodeLog(rs));
  }

  lemma {:induction false} RevivedExample(r: Record, rs: seq<Record>, v: Value)
    requires |v| == 240 && r == Put(1, 9, [5]) && rs == [Put(1, 7, v), Commit(1)]
    ensures Recovery(EncodeRecord(r)[..17]).next == 1
    ensures var table := Recovery(EncodeRecord(r)[..17] + EncodeLog(rs)).table;
            table.Keys == {9} && table[9].Version? && |table[9].val| == 257
  {
    hide Parse, EncodeRecord, Recovery, Committed, KeyHolds;
    FieldWidths();
    assert EncodeLog([]) == [];
    assert [] + EncodeRecord(r)[..17] == EncodeRecord(r)[..17];
    TornIdReused([], r, 17);
    assert Recovery(EncodeRecord(r)[..17]).next <= 1;
    var d := RevivedEntry(r, rs, v);
    var rec := Recovery(EncodeLog([]) + Joined(r, 17, EncodeLog(rs)));
    assert EncodeLog([]) + Joined(r, 17, EncodeLog(rs)) == EncodeRecord(r)[..17] + EncodeLog(rs);
    var met := [Put(1, 9, d.value), Commit(1)];
    assert met == [] + ([RecordOf(d)] + rs[1..]);
    RecoverBehindGap([], r, 17, rs, 1, met, rec);
    RevivedKeys(met, d.value, rec.table);
  }

  lemma {:induction false} RevivedKeys(met: seq<Record>, v: Value, table: map<nat, Chain>)
    requires met == [Put(1, 9, v), Commit(1)]
    requires forall k: nat :: KeyHolds(table, k, LastPut(met, k, Committed(met)), Committed(met))
    ensures table.Keys == {9} && table[9].Version? && table[9].val == v
  {
    assert met[1] == Commit(1);
    CommittedIff(met, 1);
    var one := [Put(1, 9, v)];
    assert met == one + [Commit(1)] && one == [] + one;
    forall k: nat ensures LastPut(met, k, Committed(met)) == if k == 9 then Some(v) else None {
      LastPutAppend(one, Commit(1), k, Committed(met));
      LastPutAppend([], one[0], k, Committed(met));
    }
    forall k: nat ensures k in table <==> k == 9 {
      assert KeyHolds(table, k, LastPut(met, k, Committed(met)), Committed(met));
    }
    assert KeyHolds(table, 9, LastPut(met, 9, Committed(met)), Committed(met));
  }

  lemma {:induction false} RevivedEntry(r: Record, rs: seq<Record>, v: Value) returns (d: Entry)
    requires |v| == 240 && r == Put(1, 9, [5]) && rs == [Put(1, 7, v), Commit(1)]
    ensures GapEnds(r, 17, rs, 1) && d == EntryAt(Joined(r, 17, EncodeLog(rs)), 0)
    ensures d.kind == 1 && d.txn == 1 && d.key == 9 && |d.value| == 257
  {
    hide EncodeRecord, EncodeLog, ToLE, FieldAt, LogLength, Pow256;
    var more := EncodeLog(rs);
    var b := Joined(r, 17, more);
    FieldWidths();
    RevivedBytes(r, rs, more, b);
    JoinedHeader(r, 17, more);
    d := EntryAt(b, 0);
    RoundTrip(b, 9, 9, 8);
    RoundTrip(b, 17, 257, 4);
  }

  lemma {:induction false} RevivedBytes(r: Record, rs: seq<Record>, more: seq<byte>, b: seq<byte>)
    requires r.Put? && |rs| > 0 && rs[0].Put? && rs[0].txn == 1 && |rs[0].value| == 240
    requires more == EncodeLog(rs) && b == Joined(r, 17, more)
    ensures LogLength(rs[..1]) == 261
    ensures |b| >= 38 && b[9..9 + 8] == ToLE(r.key, 8) && b[17..17 + 4] == ToLE(257, 4)
  {
    hide EncodeRecord, ToLE;
    assert rs[..1] == [rs[0]] && rs[..1][1..] == [];
    RevivedSize(rs, more);
    hide EncodeLog, LogLength;
    KeyBytes(r);
    assert b[9..9 + 8] == EncodeRecord(r)[9..17];
    assert b[17..17 + 4] == more[..4];
  }

  lemma {:induction false} KeyBytes(r: Record)
    requires r.Put?
    ensures EncodeRecord(r)[9..17] == ToLE(r.key, 8)
  {
    hide ToLE;
  }

  lemma {:induction false} RevivedSize(rs: seq<Record>, more: seq<byte>)
    requires |rs| > 0 && rs[0].Put? && rs[0].txn == 1 && more == EncodeLog(rs)
    ensures more[..4] == ToLE(257, 4)
  {
    var e := EncodeRecord(rs[0]);
    assert more[..4] == e[..4];
    LeadBytes(rs[0], e);
    hide EncodeRecord, EncodeLog;
    assert ToLE(1, 8) == [1] + ToLE(0, 7) && ToLE(0, 7) == [0] + ToLE(0, 6) && ToLE(0, 6) == [0] + ToLE(0, 5);
    assert e[1] == e[1..9][0] && e[2] == e[1..9][1] && e[3] == e[1..9][2];
    assert ToLE(257, 4) == [1, 1, 0, 0];
  }

  lemma {:induction false} LeadBytes(r: Record, e: seq<byte>)
    requires e == EncodeRecord(r)
    ensures e[0] == Kind(r) && e[1..9] == ToLE(r.txn, 8)
  {
    hide ToLE;
  }
}
