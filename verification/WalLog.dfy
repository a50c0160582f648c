/** The transactional engine's write-ahead log: its records, their bytes, and two-pass recovery. */
module WalLog {
  import opened Common
  import opened Bytes
  import opened MvccVersions

  datatype Record = Put(txn: nat, key: nat, value: Value) | Commit(txn: nat) | Abort(txn: nat)

  const HEADER_SIZE: nat := 21

  /** All fields fit the header's widths. */
  ghost predicate Sized(r: Record) {
    r.txn < Pow256(8) && (r.Put? ==> r.key < Pow256(8) && |r.value| < Pow256(4))
  }

  ghost predicate AllSized(rs: seq<Record>) { forall i :: 0 <= i < |rs| ==> Sized(rs[i]) }

  /** The packed header: type, transaction id, key, value size. */
  function Header(kind: byte, txn: nat, key: nat, size: nat): (r: seq<byte>)
    ensures |r| == HEADER_SIZE
  {
    [kind] + ToLE(txn, 8) + ToLE(key, 8) + ToLE(size, 4)
  }

  function Kind(r: Record): byte { if r.Put? then 1 else if r.Commit? then 2 else 3 }

  function KeyOf(r: Record): nat { if r.Put? then r.key else 0 }

  function ValueOf(r: Record): Value { if r.Put? then r.value else [] }

  function RecordLength(r: Record): nat { HEADER_SIZE + |ValueOf(r)| }

  function EncodeRecord(r: Record): (e: seq<byte>)
    ensures |e| == RecordLength(r)
  {
    Header(Kind(r), r.txn, KeyOf(r), |ValueOf(r)|) + ValueOf(r)
  }

  function LogLength(rs: seq<Record>): nat {
    if rs == [] then 0 else RecordLength(rs[0]) + LogLength(rs[1..])
  }

  function EncodeLog(rs: seq<Record>): (e: seq<byte>)
    ensures |e| == LogLength(rs)
  {
    if rs == [] then [] else EncodeRecord(rs[0]) + EncodeLog(rs[1..])
  }

  lemma {:induction false} EncodeAppend(rs: seq<Record>, r: Record)
    ensures EncodeLog(rs + [r]) == EncodeLog(rs) + EncodeRecord(r)
  {
    if rs == [] {
      assert rs + [r] == [r] && [r][1..] == [];
    } else {
      assert (rs + [r])[1..] == rs[1..] + [r];
      EncodeAppend(rs[1..], r);
    }
  }

  // ---- What a log says ----

  ghost function Committed(rs: seq<Record>): set<nat> {
    set r | r in rs && r.Commit? :: r.txn
  }

  lemma {:induction false} CommittedIff(rs: seq<Record>, t: nat)
    ensures t in Committed(rs) <==> Commit(t) in rs
  {
    if Commit(t) in rs {
      assert Commit(t).txn == t;
    }
  }

  /** The last value put to k by one of the transactions in `who`. */
  ghost function LastPut(rs: seq<Record>, k: nat, who: set<nat>): Option<Value> {
    if rs == [] then None
    else
      var r := rs[|rs| - 1];
      if r.Put? && r.key == k && r.txn in who then Some(r.value) else LastPut(rs[..|rs| - 1], k, who)
  }

  lemma {:induction false} LastPutAppend(rs: seq<Record>, r: Record, k: nat, who: set<nat>)
    ensures LastPut(rs + [r], k, who) ==
            if r.Put? && r.key == k && r.txn in who then Some(r.value) else LastPut(rs, k, who)
  {
    assert (rs + [r])[..|rs|] == rs;
  }

  ghost predicate NoPut(rs: seq<Record>, t: nat, k: nat) {
    forall i :: 0 <= i < |rs| ==> !(rs[i].Put? && rs[i].txn == t && rs[i].key == k)
  }

  lemma {:induction false} LastPutIgnores(rs: seq<Record>, k: nat, who: set<nat>, t: nat)
    requires NoPut(rs, t, k)
    ensures LastPut(rs, k, who + {t}) == LastPut(rs, k, who)
  {
    if rs != [] {
      LastPutIgnores(rs[..|rs| - 1], k, who, t);
    }
  }

  /** No transaction writes after its commit. */
  ghost predicate CommitIsLast(rs: seq<Record>) {
    forall i, j :: 0 <= i < j < |rs| && rs[i].Commit? && rs[j].Put? ==> rs[i].txn != rs[j].txn
  }

  // ---- Recovery, on the bytes of any file ----

  /** The header at `pos`, when a whole one can be read there. */
  predicate HasHeader(file: seq<byte>, pos: nat) { pos + HEADER_SIZE <= |file| }

  function TxnAt(file: seq<byte>, pos: nat): nat
    requires HasHeader(file, pos)
  {
    FieldAt(file, pos + 1, pos + 9)
  }

  function KeyAt(file: seq<byte>, pos: nat): nat
    requires HasHeader(file, pos)
  {
    FieldAt(file, pos + 9, pos + 17)
  }

  function SizeAt(file: seq<byte>, pos: nat): nat
    requires HasHeader(file, pos)
  {
    FieldAt(file, pos + 17, pos + 21)
  }

  /** Where the next header is read: after a put the reader skips the announced value. */
  function NextPos(file: seq<byte>, pos: nat): nat
    requires HasHeader(file, pos)
  {
    pos + HEADER_SIZE + (if file[pos] == 1 then SizeAt(file, pos) else 0)
  }

  /** The value read after a put header; what the file is too short for stays zero. */
  function ValueAt(file: seq<byte>, pos: nat): Value
    requires HasHeader(file, pos)
  {
    var have := file[pos + HEADER_SIZE..];
    var size := SizeAt(file, pos);
    if size <= |have| then have[..size] else have + seq(size - |have|, _ => 0)
  }

  /** What the reader makes of the bytes at one position. */
  datatype Entry = Entry(kind: byte, txn: nat, key: nat, value: Value)

  function EntryAt(file: seq<byte>, pos: nat): Entry
    requires HasHeader(file, pos)
  {
    if file[pos] == 1 then Entry(1, TxnAt(file, pos), KeyAt(file, pos), ValueAt(file, pos))
    else Entry(file[pos], TxnAt(file, pos), 0, [])
  }

  /** The entries either pass meets, in order. */
  function Parse(file: seq<byte>, pos: nat): seq<Entry>
    decreases |file| - pos
  {
    if !HasHeader(file, pos) then [] else [EntryAt(file, pos)] + Parse(file, NextPos(file, pos))
  }

  datatype Analysis = Analysis(committed: set<nat>, maxTxn: nat)

  function AnalyzeOne(e: Entry, a: Analysis): Analysis {
    Analysis(if e.kind == 2 then a.committed + {e.txn} else a.committed,
             if e.txn > a.maxTxn then e.txn else a.maxTxn)
  }

  function Analyze(es: seq<Entry>, a: Analysis): Analysis {
    if es == [] then a else Analyze(es[1..], AnalyzeOne(es[0], a))
  }

  function RedoOne(e: Entry, committed: set<nat>, table: map<nat, Chain>): map<nat, Chain> {
    if e.kind == 1 && e.txn in committed then table[e.key := Version(e.txn, e.value, Nil)] else table
  }

  function Redo(es: seq<Entry>, committed: set<nat>, table: map<nat, Chain>): map<nat, Chain> {
    if es == [] then table else Redo(es[1..], committed, RedoOne(es[0], committed, table))
  }

  datatype Recovered = Recovered(table: map<nat, Chain>, next: nat)

  /** Phase 1 collects the committed transactions and the highest id, phase 2 replays committed writes. */
  function Recovery(file: seq<byte>): (r: Recovered)
    ensures r.next > 0
  {
    var es := Parse(file, 0);
    var a := Analyze(es, Analysis({}, 0));
    Recovered(Redo(es, a.committed, map[]), a.maxTxn + 1)
  }

  /** Phase 1: one loop over the headers. */
  method AnalysisPass(file: seq<byte>) returns (committed: set<nat>, maxTxn: nat)
    ensures Analysis(committed, maxTxn) == Analyze(Parse(file, 0), Analysis({}, 0))
  {
    var pos := 0;
    committed, maxTxn := {}, 0;
    while pos + HEADER_SIZE <= |file|
      invariant Analyze(Parse(file, pos), Analysis(committed, maxTxn)) == Analyze(Parse(file, 0), Analysis({}, 0))
      decreases |file| - pos
    {
      var txn := TxnAt(file, pos);
      if txn > maxTxn { maxTxn := txn; }
      if file[pos] == 1 {
        pos := pos + HEADER_SIZE + SizeAt(file, pos);
      } else {
        if file[pos] == 2 { committed := committed + {txn}; }
        pos := pos + HEADER_SIZE;
      }
    }
  }

  /** Phase 2: one loop over headers and values. */
  method RedoPass(file: seq<byte>, committed: set<nat>) returns (table: map<nat, Chain>)
    ensures table == Redo(Parse(file, 0), committed, map[])
  {
    var pos := 0;
    table := map[];
    while pos + HEADER_SIZE <= |file|
      invariant Redo(Parse(file, pos), committed, table) == Redo(Parse(file, 0), committed, map[])
      decreases |file| - pos
    {
      if file[pos] == 1 {
        var val := ValueAt(file, pos);
        var txn := TxnAt(file, pos);
        if txn in committed {
          table := table[KeyAt(file, pos) := Version(txn, val, Nil)];
        }
        pos := pos + HEADER_SIZE + SizeAt(file, pos);
      } else {
        pos := pos + HEADER_SIZE;
      }
    }
  }

  /** Recovery of any file, whatever its bytes are. */
  method RecoverFromWal(file: seq<byte>) returns (table: map<nat, Chain>, next: nat)
    ensures Recovered(table, next) == Recovery(file)
  {
    var committed, maxTxn := AnalysisPass(file);
    next := maxTxn + 1;
    table := RedoPass(file, committed);
  }

  // ---- Recovery of a log cut at any byte ----

  ghost function EntryOf(r: Record): Entry { Entry(Kind(r), r.txn, KeyOf(r), ValueOf(r)) }

  ghost function EntriesOf(rs: seq<Record>): (es: seq<Entry>)
    ensures |es| == |rs|
  {
    if rs == [] then [] else [EntryOf(rs[0])] + EntriesOf(rs[1..])
  }

  lemma {:induction false} SubSlice(s: seq<byte>, lo: nat, hi: nat, i: nat, j: nat)
    requires lo <= hi <= |s| && i <= j <= hi - lo
    ensures s[lo..hi][i..j] == s[lo + i..lo + j]
  {
    forall k | 0 <= k < j - i ensures s[lo..hi][i..j][k] == s[lo + i..lo + j][k] {
    }
  }

  /** Reading back a header written at `p`. */
  lemma {:induction false} HeaderFields(file: seq<byte>, p: nat, kind: byte, txn: nat, key: nat, size: nat)
    requires p + HEADER_SIZE <= |file| && file[p..p + HEADER_SIZE] == Header(kind, txn, key, size)
    requires txn < Pow256(8) && key < Pow256(8) && size < Pow256(4)
    ensures file[p] == kind
    ensures TxnAt(file, p) == txn && KeyAt(file, p) == key && SizeAt(file, p) == size
  {
    var h := Header(kind, txn, key, size);
    assert h[1..9] == ToLE(txn, 8) && h[9..17] == ToLE(key, 8) && h[17..21] == ToLE(size, 4);
    SubSlice(file, p, p + HEADER_SIZE, 1, 9);
    SubSlice(file, p, p + HEADER_SIZE, 9, 17);
    SubSlice(file, p, p + HEADER_SIZE, 17, 21);
    assert file[p] == file[p..p + HEADER_SIZE][0];
    RoundTrip(file, p + 1, txn, 8);
    RoundTrip(file, p + 9, key, 8);
    RoundTrip(file, p + 17, size, 4);
  }

  lemma {:induction false} RecordEntry(file: seq<byte>, p: nat, r: Record)
    requires Sized(r) && p + RecordLength(r) <= |file| && file[p..p + RecordLength(r)] == EncodeRecord(r)
    ensures HasHeader(file, p) && EntryAt(file, p) == EntryOf(r)
    ensures NextPos(file, p) == p + RecordLength(r)
  {
    var h, v := Header(Kind(r), r.txn, KeyOf(r), |ValueOf(r)|), ValueOf(r);
    SubSlice(file, p, p + RecordLength(r), 0, HEADER_SIZE);
    SubSlice(file, p, p + RecordLength(r), HEADER_SIZE, RecordLength(r));
    SplitConcat(h, v);
    FieldWidths();
    HeaderFields(file, p, Kind(r), r.txn, KeyOf(r), |v|);
    assert file[p + HEADER_SIZE..][..|v|] == file[p + HEADER_SIZE..p + RecordLength(r)];
  }

  /** The reader, standing at p, meets the records rs next. */
  ghost predicate Meets(file: seq<byte>, p: nat, rs: seq<Record>)
    decreases |rs|
  {
    rs == [] || (&& HasHeader(file, p) && EntryAt(file, p) == EntryOf(rs[0])
                 && NextPos(file, p) == p + RecordLength(rs[0])
                 && Meets(file, p + RecordLength(rs[0]), rs[1..]))
  }

  lemma {:induction false} ParseStep(file: seq<byte>, p: nat, rs: seq<Record>, q: nat, rest: seq<Entry>)
    requires rs != [] && HasHeader(file, p) && EntryAt(file, p) == EntryOf(rs[0]) && NextPos(file, p) == q
    requires Parse(file, q) == EntriesOf(rs[1..]) + rest
    ensures Parse(file, p) == EntriesOf(rs) + rest
  {
    assert [EntryOf(rs[0])] + (EntriesOf(rs[1..]) + rest) == EntriesOf(rs) + rest;
  }

  /** The reader meets the complete records one by one. */
  lemma {:induction false} LogParses(file: seq<byte>, p: nat, rs: seq<Record>, end: nat)
    requires Meets(file, p, rs) && end == p + LogLength(rs)
    ensures Parse(file, p) == EntriesOf(rs) + Parse(file, end)
    decreases |rs|
  {
    hide Parse, EntryAt;
    if rs != [] {
      var q := p + RecordLength(rs[0]);
      LogParses(file, q, rs[1..], end);
      ParseStep(file, p, rs, q, Parse(file, end));
    }
  }

  lemma {:induction false} MeetsEncoded(file: seq<byte>, p: nat, rs: seq<Record>)
    requires AllSized(rs) && p + LogLength(rs) <= |file| && file[p..p + LogLength(rs)] == EncodeLog(rs)
    ensures Meets(file, p, rs)
    decreases |rs|
  {
    hide EncodeRecord, EncodeLog, EntryAt;
    if rs != [] {
      HeadOfLog(file, p, rs);
      RecordEntry(file, p, rs[0]);
      MeetsEncoded(file, p + RecordLength(rs[0]), rs[1..]);
    }
  }

  lemma {:induction false} HeadOfLog(file: seq<byte>, p: nat, rs: seq<Record>)
    requires rs != [] && p + LogLength(rs) <= |file| && file[p..p + LogLength(rs)] == EncodeLog(rs)
    ensures file[p..p + RecordLength(rs[0])] == EncodeRecord(rs[0])
    ensures file[p + RecordLength(rs[0])..p + LogLength(rs)] == EncodeLog(rs[1..])
  {
    SubSlice(file, p, p + LogLength(rs), 0, RecordLength(rs[0]));
    SubSlice(file, p, p + LogLength(rs), RecordLength(rs[0]), LogLength(rs));
    SplitConcat(EncodeRecord(rs[0]), EncodeLog(rs[1..]));
  }

  lemma {:induction false} SplitConcat(a: seq<byte>, b: seq<byte>)
    ensures (a + b)[0..|a|] == a && (a + b)[|a|..|a| + |b|] == b
  {
  }

  /** A torn record: some but not all bytes of one. */
  ghost predicate Torn(tail: seq<byte>, r: Record) {
    Sized(r) && |tail| < |EncodeRecord(r)| && tail == EncodeRecord(r)[..|tail|]
  }

  /** A torn record is not met at all, or met as a put of the right transaction with a damaged value. */
  lemma {:induction false} TornParses(file: seq<byte>, p: nat, r: Record)
    requires p <= |file| && Torn(file[p..], r)
    ensures var es := Parse(file, p);
            es == [] || (|es| == 1 && r.Put? && es[0].kind == 1 && es[0].txn == r.txn)
  {
    if |file| - p >= HEADER_SIZE {
      var h := Header(1, r.txn, r.key, |r.value|);
      assert EncodeRecord(r)[..HEADER_SIZE] == h;
      assert file[p..p + HEADER_SIZE] == file[p..][..HEADER_SIZE] == h;
      HeaderFields(file, p, 1, r.txn, r.key, |r.value|);
      assert Parse(file, NextPos(file, p)) == [];
    }
  }

  lemma {:induction false} AnalyzeMeaning(rs: seq<Record>, a: Analysis)
    ensures var b := Analyze(EntriesOf(rs), a);
            && (forall t :: t in b.committed <==> t in a.committed || Commit(t) in rs)
            && b.maxTxn >= a.maxTxn
            && (forall i :: 0 <= i < |rs| ==> rs[i].txn <= b.maxTxn)
  {
    if rs != [] {
      AnalyzeMeaning(rs[1..], AnalyzeOne(EntryOf(rs[0]), a));
      assert rs == [rs[0]] + rs[1..];
    }
  }

  lemma {:induction false} AnalyzeAppend(es: seq<Entry>, e: Entry, a: Analysis)
    ensures Analyze(es + [e], a) == AnalyzeOne(e, Analyze(es, a))
  {
    if es == [] {
      assert es + [e] == [e] && [e][1..] == [];
    } else {
      assert (es + [e])[1..] == es[1..] + [e];
      AnalyzeAppend(es[1..], e, AnalyzeOne(es[0], a));
    }
  }

  lemma {:induction false} RedoAppend(es: seq<Entry>, e: Entry, c: set<nat>, table: map<nat, Chain>)
    ensures Redo(es + [e], c, table) == RedoOne(e, c, Redo(es, c, table))
  {
    if es == [] {
      assert es + [e] == [e] && [e][1..] == [];
    } else {
      assert (es + [e])[1..] == es[1..] + [e];
      RedoAppend(es[1..], e, c, RedoOne(es[0], c, table));
    }
  }

  lemma {:induction false} EntriesAppend(rs: seq<Record>, r: Record)
    ensures EntriesOf(rs + [r]) == EntriesOf(rs) + [EntryOf(r)]
  {
    if rs == [] {
      assert rs + [r] == [r] && [r][1..] == [];
    } else {
      assert (rs + [r])[1..] == rs[1..] + [r];
      EntriesAppend(rs[1..], r);
    }
  }

  /** The table holds for k exactly the last value, if any, written by one of the transactions in c. */
  ghost predicate KeyHolds(table: map<nat, Chain>, k: nat, last: Option<Value>, c: set<nat>) {
    if last.None? then k !in table
    else k in table && table[k].Version? && table[k].val == last.value && table[k].prev.Nil? && table[k].xmin in c
  }

  lemma {:induction false} RedoMeaning(rs: seq<Record>, c: set<nat>, k: nat)
    ensures KeyHolds(Redo(EntriesOf(rs), c, map[]), k, LastPut(rs, k, c), c)
  {
    if rs != [] {
      var init, r := rs[..|rs| - 1], rs[|rs| - 1];
      assert rs == init + [r];
      RedoMeaning(init, c, k);
      EntriesAppend(init, r);
      RedoAppend(EntriesOf(init), EntryOf(r), c, map[]);
      LastPutAppend(init, r, k, c);
    }
  }

  /** How many records lie completely within the first n bytes of the log. */
  ghost function CompleteIn(rs: seq<Record>, n: nat): (m: nat)
    ensures m <= |rs|
  {
    if rs == [] || n < |EncodeRecord(rs[0])| then 0
    else 1 + CompleteIn(rs[1..], n - |EncodeRecord(rs[0])|)
  }

  /** A byte prefix of a log is its complete records followed by nothing or a torn record. */
  lemma {:induction false} CutLog(rs: seq<Record>, n: nat) returns (tail: seq<byte>)
    requires AllSized(rs) && n <= |EncodeLog(rs)|
    ensures var m := CompleteIn(rs, n);
            && EncodeLog(rs)[..n] == EncodeLog(rs[..m]) + tail
            && (tail == [] || (m < |rs| && Torn(tail, rs[m])))
  {
    hide EncodeRecord, Sized;
    if rs == [] {
      tail := [];
    } else {
      var e, rest := EncodeRecord(rs[0]), EncodeLog(rs[1..]);
      if n < |e| {
        tail := e[..n];
        assert (e + rest)[..n] == [] + tail;
      } else {
        tail := CutLog(rs[1..], n - |e|);
        CutMore(rs, CompleteIn(rs[1..], n - |e|), n, tail);
      }
    }
  }

  lemma {:induction false} TakeConcat(a: seq<byte>, b: seq<byte>, c: seq<byte>, d: seq<byte>, n: nat)
    requires |a| <= n <= |a| + |b| && b[..n - |a|] == c + d
    ensures (a + b)[..n] == (a + c) + d
  {
    assert (a + b)[..n] == a + b[..n - |a|];
  }

  lemma {:induction false} CutMore(rs: seq<Record>, m: nat, n: nat, tail: seq<byte>)
    requires rs != [] && m < |rs| && |EncodeRecord(rs[0])| <= n <= |EncodeLog(rs)|
    requires EncodeLog(rs[1..])[..n - |EncodeRecord(rs[0])|] == EncodeLog(rs[1..][..m]) + tail
    ensures EncodeLog(rs)[..n] == EncodeLog(rs[..m + 1]) + tail
  {
    assert rs[..m + 1][1..] == rs[1..][..m];
    TakeConcat(EncodeRecord(rs[0]), EncodeLog(rs[1..]), EncodeLog(rs[1..][..m]), tail, n);
  }

  /** What the reader meets in a cut log: the complete records, then at most one damaged put. */
  lemma {:induction false} CutParses(rs: seq<Record>, n: nat) returns (extra: seq<Entry>)
    requires AllSized(rs) && n <= |EncodeLog(rs)|
    ensures Parse(EncodeLog(rs)[..n], 0) == EntriesOf(rs[..CompleteIn(rs, n)]) + extra
    ensures extra == [] || (|extra| == 1 && extra[0].kind == 1 && CompleteIn(rs, n) < |rs|
                            && rs[CompleteIn(rs, n)].Put? && extra[0].txn == rs[CompleteIn(rs, n)].txn)
  {
    var tail := CutLog(rs, n);
    var m := CompleteIn(rs, n);
    extra := PartsParse(EncodeLog(rs)[..n], rs[..m], tail);
    if tail != [] {
      assert EncodeLog(rs)[..n][LogLength(rs[..m])..] == tail;
      TornParses(EncodeLog(rs)[..n], LogLength(rs[..m]), rs[m]);
    }
  }

  lemma {:induction false} PartsParse(file: seq<byte>, kept: seq<Record>, tail: seq<byte>) returns (extra: seq<Entry>)
    requires AllSized(kept) && file == EncodeLog(kept) + tail
    ensures Parse(file, 0) == EntriesOf(kept) + extra && extra == Parse(file, LogLength(kept))
    ensures tail == [] ==> extra == []
  {
    SplitConcat(EncodeLog(kept), tail);
    MeetsEncoded(file, 0, kept);
    LogParses(file, 0, kept, LogLength(kept));
    extra := Parse(file, LogLength(kept));
  }

  lemma {:induction false} TornIsUncommitted(rs: seq<Record>, m: nat)
    requires CommitIsLast(rs) && m < |rs| && rs[m].Put?
    ensures rs[m].txn !in Committed(rs[..m])
  {
    CommittedIff(rs[..m], rs[m].txn);
  }

  lemma {:induction false} AnalyzedCommitted(rs: seq<Record>)
    ensures Analyze(EntriesOf(rs), Analysis({}, 0)).committed == Committed(rs)
  {
    AnalyzeMeaning(rs, Analysis({}, 0));
    forall t ensures t in Analyze(EntriesOf(rs), Analysis({}, 0)).committed <==> t in Committed(rs) {
      CommittedIff(rs, t);
    }
  }

  /** Crash recovery: whatever byte the log is cut at, the recovered table holds for each key the last
      value written by a transaction whose commit record is complete in the cut log, everything else is
      ignored, and the next transaction id is above every id logged in a complete record. */
  lemma {:induction false} RecoverCutLog(rs: seq<Record>, n: nat, kept: seq<Record>, rec: Recovered)
    requires AllSized(rs) && CommitIsLast(rs) && n <= |EncodeLog(rs)|
    requires kept == rs[..CompleteIn(rs, n)] && rec == Recovery(EncodeLog(rs)[..n])
    ensures forall k: nat :: KeyHolds(rec.table, k, LastPut(kept, k, Committed(kept)), Committed(kept))
    ensures forall i :: 0 <= i < |kept| ==> kept[i].txn < rec.next
  {
    var m := CompleteIn(rs, n);
    var extra := CutParses(rs, n);
    var es := EntriesOf(kept);
    AnalyzedCommitted(kept);
    AnalyzeMeaning(kept, Analysis({}, 0));
    if extra == [] {
      assert es + extra == es;
    } else {
      assert extra == [extra[0]];
      AnalyzeAppend(es, extra[0], Analysis({}, 0));
      TornIsUncommitted(rs, m);
      RedoAppend(es, extra[0], Committed(kept), map[]);
    }
    forall k: nat
      ensures KeyHolds(Redo(es, Committed(kept), map[]), k, LastPut(kept, k, Committed(kept)), Committed(kept))
    {
      RedoMeaning(kept, Committed(kept), k);
    }
  }
}
