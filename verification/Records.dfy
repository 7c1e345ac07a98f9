/** Reassembly of TLS records from TCP payloads (process_new_record). */
module Records {
  import opened Bytes

  const HEADER: nat := 5
  const MAX_RECORD_SIZE: nat := 16061

  /** Between records, inside one, or stopped by the assertion on the length field. */
  datatype Reader = Idle | Reading(need: nat, got: bytes) | Dead

  predicate Ok(r: Reader)
  {
    r.Reading? ==> |r.got| < r.need
  }

  /** What a header at the front of `pkt` announces. */
  function Begin(pkt: bytes): (r: Reader)
    requires |pkt| >= HEADER
    ensures Ok(r)
  {
    var len := Get16(pkt[3..5]);
    if len >= MAX_RECORD_SIZE then Dead else Reading(len + HEADER, [])
  }

  /** Where in the record's buffer of MAX_RECORD_SIZE bytes its data starts. */
  const DATA_OFFSET: nat := 8

  /** The assertion admits lengths for which header and body overrun the record's buffer: exactly the last
      twelve. */
  lemma OverrunsIff(pkt: bytes)
    requires |pkt| >= HEADER
    ensures (Begin(pkt).Reading? && DATA_OFFSET + Begin(pkt).need > MAX_RECORD_SIZE) <==>
            16049 <= Get16(pkt[3..5]) <= 16060
  {}

  function Min(a: nat, b: nat): nat { if a < b then a else b }

  /** A reader together with the records completed so far. */
  datatype Progress = Progress(reader: Reader, done: seq<bytes>)

  function Prepend(rec: bytes, p: Progress): Progress
  {
    Progress(p.reader, [rec] + p.done)
  }

  /** The reader after a payload, and the records completed by it. A payload that ends inside a header
      loses those one to four bytes. */
  function Feed(r: Reader, pkt: bytes): (result: Progress)
    requires Ok(r)
    ensures Ok(result.reader)
    decreases |pkt|, if r.Idle? then 1 else 0
  {
    if pkt == [] || r.Dead? || (r.Idle? && |pkt| < HEADER) then Progress(r, [])
    else if r.Idle? then Feed(Begin(pkt), pkt)
    else
      var n := r.need - |r.got|;
      if |pkt| < n then Progress(Reading(r.need, r.got + pkt), [])
      else Prepend(r.got + pkt[..n], Feed(Idle, pkt[n..]))
  }

  /** The bytes of a cut header that the payload ends with. */
  function Lost(r: Reader, pkt: bytes): (n: nat)
    requires Ok(r)
    ensures n <= |pkt| && n < HEADER
    decreases |pkt|, if r.Idle? then 1 else 0
  {
    if pkt == [] || r.Dead? then 0
    else if r.Idle? then (if |pkt| < HEADER then |pkt| else Lost(Begin(pkt), pkt))
    else
      var n := r.need - |r.got|;
      if |pkt| < n then 0 else Lost(Idle, pkt[n..])
  }

  /** Two payloads one after the other. */
  function FeedTwo(r: Reader, a: bytes, b: bytes): Progress
    requires Ok(r)
  {
    var first := Feed(r, a);
    var second := Feed(first.reader, b);
    Progress(second.reader, first.done + second.done)
  }

  lemma FeedTwoIdle(a: bytes, b: bytes)
    requires |a| >= HEADER
    ensures FeedTwo(Idle, a, b) == FeedTwo(Begin(a), a, b)
    ensures Feed(Idle, a + b) == Feed(Begin(a), a + b)
  {
    assert (a + b)[3..5] == a[3..5];
  }

  /** A record completed by the first payload comes out of both, ahead of the rest. */
  lemma FeedTwoFull(r: Reader, a: bytes, b: bytes)
    requires Ok(r) && r.Reading? && |a| >= r.need - |r.got|
    ensures var n := r.need - |r.got|; var rec := r.got + a[..n];
            && FeedTwo(r, a, b) == Prepend(rec, FeedTwo(Idle, a[n..], b))
            && Feed(r, a + b) == Prepend(rec, Feed(Idle, a[n..] + b))
  {
    var n := r.need - |r.got|;
    assert (a + b)[..n] == a[..n] && (a + b)[n..] == a[n..] + b;
    var rec, mid := r.got + a[..n], Feed(Idle, a[n..]);
    assert ([rec] + mid.done) + Feed(mid.reader, b).done == [rec] + (mid.done + Feed(mid.reader, b).done);
  }

  /** A record that the first payload does not complete goes on in the second. */
  lemma FeedTwoShort(r: Reader, a: bytes, b: bytes)
    requires Ok(r) && r.Reading? && a != [] && |a| < r.need - |r.got|
    ensures FeedTwo(r, a, b) == Feed(r, a + b)
  {
    var r1 := Reading(r.need, r.got + a);
    assert Feed(r, a) == Progress(r1, []);
    assert [] + Feed(r1, b).done == Feed(r1, b).done;
    var m := r1.need - |r1.got|;
    if b == [] {
      assert a + b == a;
    } else if |b| < m {
      assert r1.got + b == r.got + (a + b);
    } else {
      ContinueFull(r, a, b);
    }
  }

  lemma ContinueFull(r: Reader, a: bytes, b: bytes)
    requires Ok(r) && r.Reading? && |a| < r.need - |r.got| <= |a| + |b|
    ensures Feed(Reading(r.need, r.got + a), b) == Feed(r, a + b)
  {
    Regroup(r.got, a, b, r.need - |r.got| - |a|);
  }

  lemma Regroup(x: bytes, a: bytes, b: bytes, m: nat)
    requires m <= |b|
    ensures (a + b)[m + |a|..] == b[m..]
    ensures (x + a) + b[..m] == x + (a + b)[..m + |a|]
  {
    assert (a + b)[..m + |a|] == a + b[..m];
  }

  /** A cut outside every header changes nothing. */
  lemma {:induction false} CutAnywhere(r: Reader, a: bytes, b: bytes)
    requires Ok(r) && Lost(r, a) == 0
    ensures FeedTwo(r, a, b) == Feed(r, a + b)
    decreases |a|, if r.Idle? then 1 else 0
  {
    if a == [] {
      assert a + b == b && [] + Feed(r, b).done == Feed(r, b).done;
    } else if r.Dead? {
      assert Feed(r, b) == Feed(r, a + b) == Progress(r, []);
    } else if r.Idle? {
      FeedTwoIdle(a, b);
      CutAnywhere(Begin(a), a, b);
    } else if |a| < r.need - |r.got| {
      FeedTwoShort(r, a, b);
    } else {
      FeedTwoFull(r, a, b);
      CutAnywhere(Idle, a[r.need - |r.got|..], b);
    }
  }

  /** Payloads one after another. */
  function FeedAll(r: Reader, pkts: seq<bytes>): (result: Progress)
    requires Ok(r)
    ensures Ok(result.reader)
    decreases |pkts|
  {
    if pkts == [] then Progress(r, [])
    else
      var front := FeedAll(r, pkts[..|pkts| - 1]);
      var last := Feed(front.reader, pkts[|pkts| - 1]);
      Progress(last.reader, front.done + last.done)
  }

  /** No cut of the stream falls inside a header. */
  ghost predicate CleanCuts(r: Reader, pkts: seq<bytes>)
    requires Ok(r)
  {
    forall k :: 0 <= k < |pkts| ==> Lost(r, Flatten(pkts[..k])) == 0
  }

  /** Segmentation independence: any way of cutting the stream outside headers gives the records of the
      whole stream read at once. */
  lemma {:induction false} SegmentationIndependent(r: Reader, pkts: seq<bytes>)
    requires Ok(r) && CleanCuts(r, pkts)
    ensures FeedAll(r, pkts) == Feed(r, Flatten(pkts))
    decreases |pkts|
  {
    if pkts != [] {
      var n := |pkts| - 1;
      var front := pkts[..n];
      forall k | 0 <= k < |front|
        ensures Lost(r, Flatten(front[..k])) == 0
      {
        assert front[..k] == pkts[..k];
      }
      SegmentationIndependent(r, front);
      CutAnywhere(r, Flatten(front), pkts[n]);
    }
  }

  /** Cutting the stream after `a` is harmless for every continuation exactly when `a` does not end inside
      a header. */
  lemma CutHarmlessIff(r: Reader, a: bytes)
    requires Ok(r)
    ensures (forall b: bytes :: FeedTwo(r, a, b) == Feed(r, a + b)) <==> Lost(r, a) == 0
  {
    if Lost(r, a) == 0 {
      forall b: bytes
        ensures FeedTwo(r, a, b) == Feed(r, a + b)
      {
        CutAnywhere(r, a, b);
      }
    } else {
      var b := Zeros(HEADER - Lost(r, a));
      LostHeaderMatters(r, a, b);
    }
  }

  /** Completing the cut header with zeros gives the whole stream a header that the cut stream never sees. */
  lemma {:induction false} LostHeaderMatters(r: Reader, a: bytes, b: bytes)
    requires Ok(r) && Lost(r, a) > 0 && |b| == HEADER - Lost(r, a)
    ensures FeedTwo(r, a, b) != Feed(r, a + b)
    decreases |a|, if r.Idle? then 1 else 0
  {
    if r.Idle? {
      if |a| < HEADER {
        OneMore(a + b);
      } else {
        FeedTwoIdle(a, b);
        LostHeaderMatters(Begin(a), a, b);
      }
    } else {
      var n := r.need - |r.got|;
      FeedTwoFull(r, a, b);
      LostHeaderMatters(Idle, a[n..], b);
      PrependInjective(r.got + a[..n], FeedTwo(Idle, a[n..], b), Feed(Idle, a[n..] + b));
    }
  }

  lemma PrependInjective(rec: bytes, p: Progress, q: Progress)
    ensures Prepend(rec, p) == Prepend(rec, q) ==> p == q
  {
    if Prepend(rec, p) == Prepend(rec, q) {
      assert p.done == ([rec] + p.done)[1..] == ([rec] + q.done)[1..] == q.done;
    }
  }

  /** A lone header either completes an empty record, starts one or stops the reader: never nothing. */
  lemma OneMore(header: bytes)
    requires |header| == HEADER
    ensures Feed(Idle, header) != Progress(Idle, [])
  {
    var r := Begin(header);
    assert Feed(Idle, header) == Feed(r, header);
    if r.Reading? && r.need == HEADER {
      assert Feed(r, header).done != [];
    }
  }

  // ---------------------------------------------------------------- round trip

  predicate IsRecord(rec: bytes)
  {
    |rec| >= HEADER && Get16(rec[3..5]) == |rec| - HEADER && |rec| - HEADER < MAX_RECORD_SIZE
  }

  /** Reading a concatenation of size-bounded records gives the records back. */
  lemma {:induction false} ReadsBack(recs: seq<bytes>)
    requires forall i :: 0 <= i < |recs| ==> IsRecord(recs[i])
    ensures Feed(Idle, Flatten(recs)) == Progress(Idle, recs) && Lost(Idle, Flatten(recs)) == 0
    decreases |recs|
  {
    if recs != [] {
      var n := |recs| - 1;
      var front, last := recs[..n], recs[n];
      ReadsBack(front);
      CutAnywhere(Idle, Flatten(front), last);
      LostAfter(Idle, Flatten(front), last);
      ReadsOne(last);
      assert recs == front + [last];
    }
  }

  lemma ReadsOne(rec: bytes)
    requires IsRecord(rec)
    ensures Feed(Idle, rec) == Progress(Idle, [rec]) && Lost(Idle, rec) == 0
  {
    var r := Begin(rec);
    assert r == Reading(|rec|, []) && rec[..|rec|] == rec && [] + rec == rec && rec[|rec|..] == [];
    assert Feed(r, rec) == Prepend(rec, Feed(Idle, []));
  }

  lemma {:induction false} LostAfter(r: Reader, a: bytes, b: bytes)
    requires Ok(r) && Lost(r, a) == 0
    ensures Lost(r, a + b) == Lost(Feed(r, a).reader, b)
    decreases |a|, if r.Idle? then 1 else 0
  {
    if a == [] {
      assert a + b == b;
    } else if r.Dead? {
    } else if r.Idle? {
      assert (a + b)[3..5] == a[3..5];
      LostAfter(Begin(a), a, b);
    } else {
      var n := r.need - |r.got|;
      if |a| < n {
        assert |a + b| >= n ==> (a + b)[n..] == b[n - |a|..];
      } else {
        assert (a + b)[n..] == a[n..] + b;
        LostAfter(Idle, a[n..], b);
      }
    }
  }

  // ---------------------------------------------------------------- the loop

  /** What reading a header at position `i` and copying `n` bytes from there do to the rest of the run. */
  lemma HeaderStep(pkt: bytes, i: nat)
    requires i + HEADER <= |pkt|
    ensures var len := Get16(pkt[i + 3..i + 5]);
            Feed(Idle, pkt[i..])
            == if len >= MAX_RECORD_SIZE then Progress(Dead, []) else Feed(Reading(len + HEADER, []), pkt[i..])
  {
    assert pkt[i..][3..5] == pkt[i + 3..i + 5];
  }

  lemma CopyStep(need: nat, got: bytes, pkt: bytes, i: nat, n: nat)
    requires |got| < need && i < |pkt| && n == Min(need - |got|, |pkt| - i)
    ensures var got' := got + pkt[i..i + n];
            Feed(Reading(need, got), pkt[i..])
            == if |got'| == need then Prepend(got', Feed(Idle, pkt[i + n..])) else Progress(Reading(need, got'), [])
  {
    assert pkt[i..][..n] == pkt[i..i + n] && pkt[i..][n..] == pkt[i + n..];
    if n < need - |got| {
      assert pkt[i..i + n] == pkt[i..];
    }
  }

  /** `done` and what the rest of the run will complete make up the goal. */
  ghost predicate OnCourse(done: seq<bytes>, rest: Progress, goal: Progress)
  {
    rest.reader == goal.reader && done + rest.done == goal.done
  }

  lemma Completed(done: seq<bytes>, rec: bytes, rest: Progress, goal: Progress)
    requires OnCourse(done, Prepend(rec, rest), goal)
    ensures OnCourse(done + [rec], rest, goal)
  {
    assert done + ([rec] + rest.done) == (done + [rec]) + rest.done;
  }

  /** The session's current_read_record. */
  class RecordReader {
    var active: bool           // current_read_record is not NULL
    var dead: bool             // the length assertion failed
    var length: nat
    var data: bytes            // data[..current_len]

    ghost predicate Valid()
      reads this
    {
      (active ==> |data| < length) && !(active && dead)
    }

    ghost function State(): (r: Reader)
      requires Valid()
      reads this
      ensures Ok(r)
    {
      if dead then Dead else if active then Reading(length, data) else Idle
    }

    constructor ()
      ensures Valid() && State() == Idle
    {
      active, dead, length, data := false, false, 0, [];
    }

    /** The copy in the loop: what the payload still has for the current record, which may complete it. */
    method CopyBytes(pkt: bytes, at: nat) returns (next: nat, rec: Option<bytes>)
      requires Valid() && active && !dead && at < |pkt|
      modifies this`active, this`data
      ensures Valid() && at < next <= |pkt| && (active <==> rec.None?)
      ensures Feed(old(State()), pkt[at..])
              == if rec.Some? then Prepend(rec.value, Feed(Idle, pkt[next..])) else Progress(State(), [])
      ensures rec.None? ==> next == |pkt|
    {
      var copy := Min(length - |data|, |pkt| - at);
      CopyStep(length, data, pkt, at, copy);
      data := data + pkt[at..at + copy];
      next := at + copy;
      if |data| == length {
        active := false;
        return next, Some(data);
      }
      return next, None;
    }

    /** process_new_record; `done` are the completed records, in order. */
    method ProcessNewRecord(pkt: bytes) returns (done: seq<bytes>)
      requires Valid()
      modifies this
      ensures Valid() && Progress(State(), done) == Feed(old(State()), pkt)
    {
      done := [];
      var processed := 0;
      ghost var goal := Feed(State(), pkt);
      assert pkt[0..] == pkt && [] + goal.done == goal.done;
      while processed < |pkt| && !dead
        invariant Valid() && 0 <= processed <= |pkt|
        invariant OnCourse(done, Feed(State(), pkt[processed..]), goal)
        decreases |pkt| - processed
      {
        if !active {
          if |pkt| - processed < HEADER {
            break;
          }
          var len := Get16(pkt[processed + 3..processed + 5]);
          HeaderStep(pkt, processed);
          if len >= MAX_RECORD_SIZE {
            dead := true;
            break;
          }
          active, length, data := true, len + HEADER, [];
        }
        var next, rec := CopyBytes(pkt, processed);
        if rec.Some? {
          Completed(done, rec.value, Feed(Idle, pkt[next..]), goal);
          done := done + [rec.value];
        }
        processed := next;
      }
      assert Feed(State(), pkt[processed..]) == Progress(State(), []) && done + [] == done;
    }
  }
}
