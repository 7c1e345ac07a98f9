/** The ClientHello extension block: unpack_extensions against the encoding of section 4.2 of RFC 8446. */
module Extensions {
  import opened Bytes

  const EC_POINT_FORMATS: u16 := 0x0b
  const SUPPORTED_GROUPS: u16 := 0x0a
  const SESSION_TICKET: u16 := 0x23
  const ALPN: u16 := 0x10
  const ENCRYPT_THEN_MAC: u16 := 0x16
  const EXTENDED_MASTER_SECRET: u16 := 0x17
  const SIGNATURE_ALGORITHMS: u16 := 0x0d
  const SUPPORTED_VERSIONS: u16 := 0x2b
  const PSK_KEY_EXCHANGE_MODES: u16 := 0x2d
  const KEY_SHARE: u16 := 0x33

  predicate Skipped(kind: u16)
  {
    kind in {EC_POINT_FORMATS, SESSION_TICKET, ALPN, ENCRYPT_THEN_MAC, EXTENDED_MASTER_SECRET, PSK_KEY_EXCHANGE_MODES}
  }

  predicate Handled(kind: u16)
  {
    Skipped(kind) || kind in {SUPPORTED_GROUPS, SIGNATURE_ALGORITHMS, SUPPORTED_VERSIONS, KEY_SHARE}
  }

  // ---------------------------------------------------------------- the code

  /** What the parser leaves in client_hello_t: the lists its pointers and lengths describe. */
  datatype Parsed = Parsed(groups: bytes, sigAlgs: bytes, versions: bytes, curve: u16, pubKey: bytes)

  const NOTHING := Parsed([], [], [], 0, [])

  datatype Cursor = Cursor(offset: u16, parsed: Parsed)

  /** Bytes of the record buffer; beyond the packet it is zero. */
  function Slice(pf: bytes, from: nat, len: nat): (s: bytes)
    ensures |s| == len
  {
    seq(len, i requires 0 <= i => if from + i < |pf| then pf[from + i] else 0)
  }

  function Read16(pf: bytes, at: nat): u16
  {
    Get16(Slice(pf, at, 2))
  }

  function Advance(offset: u16, n: nat): u16
  {
    if offset + n < 0x1_0000 then offset + n else (offset + n) % 0x1_0000
  }

  /** The switch on the extension type, with the body at `at`. An unknown type is not advanced past. */
  function Dispatch(pf: bytes, kind: u16, len: u16, at: u16, p: Parsed): Cursor
  {
    if Skipped(kind) then Cursor(Advance(at, len), p)
    else if kind == SUPPORTED_GROUPS then
      var n := Read16(pf, at);
      Cursor(Advance(at, 2 + n), p.(groups := Slice(pf, Advance(at, 2), n)))
    else if kind == SIGNATURE_ALGORITHMS then
      var n := Read16(pf, at);
      Cursor(Advance(at, 2 + n), p.(sigAlgs := Slice(pf, Advance(at, 2), n)))
    else if kind == SUPPORTED_VERSIONS then
      var n: nat := Slice(pf, at, 1)[0];
      Cursor(Advance(at, 1 + n), p.(versions := Slice(pf, Advance(at, 1), n)))
    else if kind == KEY_SHARE then
      var n := Read16(pf, Advance(at, 4));
      Cursor(Advance(at, 6 + n), p.(curve := Read16(pf, Advance(at, 2)), pubKey := Slice(pf, Advance(at, 6), n)))
    else Cursor(at, p)
  }

  /** One turn of the loop. */
  function Step(pf: bytes, c: Cursor): Cursor
  {
    Dispatch(pf, Read16(pf, c.offset), Read16(pf, Advance(c.offset, 2)), Advance(c.offset, 4), c.parsed)
  }

  function Loop(pf: bytes): Cursor -> Cursor
  {
    c => Step(pf, c)
  }

  /** The loop runs exactly `turns` turns from `c` and leaves with `last`. */
  ghost predicate Ends(turn: Cursor -> Cursor, c: Cursor, end: u16, turns: nat, last: Cursor)
    decreases turns
  {
    if turns == 0 then c == last && c.offset >= end
    else c.offset < end && Ends(turn, turn(c), end, turns - 1, last)
  }

  // ---------------------------------------------------------------- the encoding

  datatype Ext =
    | Skip(kind: u16, body: bytes)
    | Groups(list: bytes)
    | SigAlgs(list: bytes)
    | Versions(list: bytes)
    | KeyShare(group: u16, key: bytes)
    | Unknown(kind: u16, body: bytes)

  predicate ValidExt(e: Ext)
  {
    match e
    case Skip(kind, body) => Skipped(kind) && |body| < 0x1_0000
    case Groups(list) => 2 + |list| < 0x1_0000
    case SigAlgs(list) => 2 + |list| < 0x1_0000
    case Versions(list) => |list| < 256
    case KeyShare(_, key) => 6 + |key| < 0x1_0000
    case Unknown(kind, body) => !Handled(kind) && |body| < 0x1_0000
  }

  /** The parser's switch knows the type, or there is no body to skip. */
  predicate Benign(e: Ext)
  {
    e.Unknown? ==> e.body == []
  }

  function TypeOf(e: Ext): u16
  {
    match e
    case Skip(kind, _) => kind
    case Groups(_) => SUPPORTED_GROUPS
    case SigAlgs(_) => SIGNATURE_ALGORITHMS
    case Versions(_) => SUPPORTED_VERSIONS
    case KeyShare(_, _) => KEY_SHARE
    case Unknown(kind, _) => kind
  }

  /** extension_data */
  function Body(e: Ext): (b: bytes)
    requires ValidExt(e)
    ensures |b| < 0x1_0000
  {
    match e
    case Skip(_, body) => body
    case Groups(list) => U16(|list|) + list
    case SigAlgs(list) => U16(|list|) + list
    case Versions(list) => [|list|] + list
    case KeyShare(group, key) => U16(4 + |key|) + U16(group) + U16(|key|) + key
    case Unknown(_, body) => body
  }

  function Encode(e: Ext): (b: bytes)
    requires ValidExt(e)
    ensures |b| == 4 + |Body(e)|
  {
    U16(TypeOf(e)) + U16(|Body(e)|) + Body(e)
  }

  function EncodeAll(exts: seq<Ext>): (b: bytes)
    requires forall i :: 0 <= i < |exts| ==> ValidExt(exts[i])
    ensures exts != [] ==> |b| >= 4
  {
    if exts == [] then [] else Encode(exts[0]) + EncodeAll(exts[1..])
  }

  /** What a reader of the list should know after one extension. */
  function Learn(p: Parsed, e: Ext): Parsed
  {
    match e
    case Skip(_, _) => p
    case Groups(list) => p.(groups := list)
    case SigAlgs(list) => p.(sigAlgs := list)
    case Versions(list) => p.(versions := list)
    case KeyShare(group, key) => p.(curve := group, pubKey := key)
    case Unknown(_, _) => p
  }

  function LearnAll(p: Parsed, exts: seq<Ext>): Parsed
    decreases |exts|
  {
    if exts == [] then p else LearnAll(Learn(p, exts[0]), exts[1..])
  }

  // ---------------------------------------------------------------- the parser inverts the encoding

  /** `part` stands in the buffer at `at`. */
  ghost predicate Stands(pf: bytes, at: nat, part: bytes)
  {
    at + |part| <= |pf| && forall i {:trigger part[i]} :: 0 <= i < |part| ==> pf[at + i] == part[i]
  }

  lemma StandsConcat(pf: bytes, at: nat, a: bytes, b: bytes)
    requires Stands(pf, at, a + b)
    ensures Stands(pf, at, a) && Stands(pf, at + |a|, b)
  {
    forall i | 0 <= i < |a|
      ensures pf[at + i] == a[i]
    {
      assert (a + b)[i] == a[i];
    }
    forall i | 0 <= i < |b|
      ensures pf[at + |a| + i] == b[i]
    {
      assert (a + b)[|a| + i] == b[i];
    }
  }

  lemma SliceStands(pf: bytes, at: nat, part: bytes)
    requires Stands(pf, at, part)
    ensures Slice(pf, at, |part|) == part
  {}

  lemma Reads(pf: bytes, at: nat, n: u16)
    requires Stands(pf, at, U16(n))
    ensures Read16(pf, at) == n
  {
    SliceStands(pf, at, U16(n));
    Get16U16(n);
  }

  /** The header of an extension and where its body starts. */
  lemma HeaderReads(pf: bytes, at: u16, e: Ext)
    requires ValidExt(e) && Stands(pf, at, Encode(e)) && at + |Encode(e)| < 0x1_0000
    ensures Read16(pf, at) == TypeOf(e) && Read16(pf, Advance(at, 2)) == |Body(e)|
    ensures Stands(pf, at + 4, Body(e)) && Advance(at, 2) == at + 2 && Advance(at, 4) == at + 4
  {
    var t, l := U16(TypeOf(e)), U16(|Body(e)|);
    StandsConcat(pf, at, t + l, Body(e));
    StandsConcat(pf, at, t, l);
    Reads(pf, at, TypeOf(e));
    Reads(pf, at + 2, |Body(e)|);
  }

  lemma ListReads(pf: bytes, at: nat, list: bytes)
    requires 2 + |list| < 0x1_0000 && Stands(pf, at, U16(|list|) + list) && at + 2 + |list| < 0x1_0000
    ensures Read16(pf, at) == |list| && Slice(pf, at + 2, |list|) == list
  {
    StandsConcat(pf, at, U16(|list|), list);
    Reads(pf, at, |list|);
    SliceStands(pf, at + 2, list);
  }

  lemma KeyShareReads(pf: bytes, at: nat, group: u16, key: bytes)
    requires 6 + |key| < 0x1_0000 && Stands(pf, at, U16(4 + |key|) + U16(group) + U16(|key|) + key)
             && at + 6 + |key| < 0x1_0000
    ensures Read16(pf, at + 2) == group && Read16(pf, at + 4) == |key| && Slice(pf, at + 6, |key|) == key
  {
    StandsConcat(pf, at, U16(4 + |key|) + U16(group) + U16(|key|), key);
    StandsConcat(pf, at, U16(4 + |key|) + U16(group), U16(|key|));
    StandsConcat(pf, at, U16(4 + |key|), U16(group));
    Reads(pf, at + 2, group);
    Reads(pf, at + 4, |key|);
    SliceStands(pf, at + 6, key);
  }

  lemma VersionsRead(pf: bytes, at: nat, list: bytes)
    requires |list| < 256 && Stands(pf, at, [|list|] + list)
    ensures Slice(pf, at, 1)[0] == |list| && Slice(pf, at + 1, |list|) == list
  {
    StandsConcat(pf, at, [|list|], list);
    SliceStands(pf, at, [|list|]);
    SliceStands(pf, at + 1, list);
  }

  /** The switch reads one well-formed body and stops right behind it. */
  lemma DispatchReads(pf: bytes, at: u16, p: Parsed, e: Ext)
    requires ValidExt(e) && Benign(e) && Stands(pf, at, Body(e)) && at + |Body(e)| < 0x1_0000
    ensures Dispatch(pf, TypeOf(e), |Body(e)|, at, p) == Cursor(at + |Body(e)|, Learn(p, e))
  {
    match e
    case Skip(kind, body) => assert Advance(at, |body|) == at + |body|;
    case Groups(list) => ListReads(pf, at, list);
    case SigAlgs(list) => ListReads(pf, at, list);
    case Versions(list) => VersionsRead(pf, at, list);
    case KeyShare(group, key) => KeyShareReads(pf, at, group, key);
    case Unknown(_, _) =>
  }

  /** One turn over one well-formed extension of a handled type. */
  lemma StepReads(pf: bytes, c: Cursor, e: Ext)
    requires ValidExt(e) && Benign(e) && Stands(pf, c.offset, Encode(e)) && c.offset + |Encode(e)| < 0x1_0000
    ensures Step(pf, c) == Cursor(c.offset + |Encode(e)|, Learn(c.parsed, e))
  {
    HeaderReads(pf, c.offset, e);
    DispatchReads(pf, c.offset + 4, c.parsed, e);
  }

  /** One turn lands behind a well-formed extension exactly when its type is handled or its body is empty. */
  lemma StepSkipsIff(pf: bytes, c: Cursor, e: Ext)
    requires ValidExt(e) && Stands(pf, c.offset, Encode(e)) && c.offset + |Encode(e)| < 0x1_0000
    ensures Step(pf, c).offset == c.offset + |Encode(e)| <==> Handled(TypeOf(e)) || Body(e) == []
  {
    if Benign(e) {
      StepReads(pf, c, e);
    } else {
      HeaderReads(pf, c.offset, e);
    }
  }

  /** A turn function that reads every well-formed extension reads every list of them. */
  ghost predicate ReadsEach(turn: Cursor -> Cursor, pf: bytes)
  {
    forall c: Cursor, e: Ext {:trigger Stands(pf, c.offset, Encode(e)), turn(c)} ::
      ValidExt(e) && Benign(e) && Stands(pf, c.offset, Encode(e)) && c.offset + |Encode(e)| < 0x1_0000 ==>
        turn(c) == Cursor(c.offset + |Encode(e)|, Learn(c.parsed, e))
  }

  lemma LoopReadsEach(pf: bytes)
    ensures ReadsEach(Loop(pf), pf)
  {
    forall c: Cursor, e: Ext | ValidExt(e) && Benign(e) && Stands(pf, c.offset, Encode(e))
      && c.offset + |Encode(e)| < 0x1_0000
      ensures Loop(pf)(c) == Cursor(c.offset + |Encode(e)|, Learn(c.parsed, e))
    {
      StepReads(pf, c, e);
    }
  }

  /** The head of a block, and what stands behind it. */
  lemma HeadReads(turn: Cursor -> Cursor, pf: bytes, c: Cursor, exts: seq<Ext>)
    requires ReadsEach(turn, pf) && exts != [] && forall i :: 0 <= i < |exts| ==> ValidExt(exts[i]) && Benign(exts[i])
    requires Stands(pf, c.offset, EncodeAll(exts)) && c.offset + |EncodeAll(exts)| < 0x1_0000
    ensures var next := turn(c);
            && next.parsed == Learn(c.parsed, exts[0]) && c.offset < next.offset
            && next.offset + |EncodeAll(exts[1..])| == c.offset + |EncodeAll(exts)|
            && Stands(pf, next.offset, EncodeAll(exts[1..]))
  {
    StandsConcat(pf, c.offset, Encode(exts[0]), EncodeAll(exts[1..]));
  }

  lemma {:induction false} TurnsRead(turn: Cursor -> Cursor, pf: bytes, c: Cursor, exts: seq<Ext>)
    requires ReadsEach(turn, pf) && forall i :: 0 <= i < |exts| ==> ValidExt(exts[i]) && Benign(exts[i])
    requires Stands(pf, c.offset, EncodeAll(exts)) && c.offset + |EncodeAll(exts)| < 0x1_0000
    ensures var end := c.offset + |EncodeAll(exts)|;
            Ends(turn, c, end, |exts|, Cursor(end, LearnAll(c.parsed, exts)))
    decreases |exts|
  {
    if exts != [] {
      HeadReads(turn, pf, c, exts);
      TurnsRead(turn, pf, turn(c), exts[1..]);
    }
  }

  /** For every list of well-formed extensions that are handled or empty, in any order, the loop ends after one
      turn per extension, exactly at the end of the block, having recovered every list and the key share. */
  lemma UnpackInvertsEncode(pf: bytes, offset: u16, exts: seq<Ext>)
    requires forall i :: 0 <= i < |exts| ==> ValidExt(exts[i]) && Benign(exts[i])
    requires Stands(pf, offset, EncodeAll(exts)) && offset + |EncodeAll(exts)| < 0x1_0000
    ensures var end := offset + |EncodeAll(exts)|;
            Ends(Loop(pf), Cursor(offset, NOTHING), end, |exts|, Cursor(end, LearnAll(NOTHING, exts)))
  {
    LoopReadsEach(pf);
    TurnsRead(Loop(pf), pf, Cursor(offset, NOTHING), exts);
  }

  /** An extension of a type outside the list is not skipped, whatever length it announces: after its
      header the loop goes on reading, and takes extensions inside its body for extensions of the block. */
  lemma UnknownIsSpliced(pf: bytes, offset: u16, kind: u16, len: u16, exts: seq<Ext>)
    requires !Handled(kind) && forall i :: 0 <= i < |exts| ==> ValidExt(exts[i]) && Benign(exts[i])
    requires Stands(pf, offset, U16(kind) + U16(len)) && Stands(pf, offset + 4, EncodeAll(exts))
    requires offset + 4 + |EncodeAll(exts)| < 0x1_0000
    ensures var end := offset + 4 + |EncodeAll(exts)|;
            Ends(Loop(pf), Cursor(offset, NOTHING), end, 1 + |exts|, Cursor(end, LearnAll(NOTHING, exts)))
  {
    LoopReadsEach(pf);
    UnknownStep(pf, offset, kind, U16(len));
    Spliced(Loop(pf), pf, offset, exts);
  }

  lemma Spliced(turn: Cursor -> Cursor, pf: bytes, offset: u16, exts: seq<Ext>)
    requires ReadsEach(turn, pf) && forall i :: 0 <= i < |exts| ==> ValidExt(exts[i]) && Benign(exts[i])
    requires Stands(pf, offset + 4, EncodeAll(exts)) && offset + 4 + |EncodeAll(exts)| < 0x1_0000
    requires turn(Cursor(offset, NOTHING)) == Cursor(offset + 4, NOTHING)
    ensures var end := offset + 4 + |EncodeAll(exts)|;
            Ends(turn, Cursor(offset, NOTHING), end, 1 + |exts|, Cursor(end, LearnAll(NOTHING, exts)))
  {
    var next := Cursor(offset + 4, NOTHING);
    TurnsRead(turn, pf, next, exts);
    var end := offset + 4 + |EncodeAll(exts)|;
    EndsLater(turn, Cursor(offset, NOTHING), next, end, |exts|, Cursor(end, LearnAll(NOTHING, exts)));
  }

  lemma EndsLater(turn: Cursor -> Cursor, c: Cursor, next: Cursor, end: u16, turns: nat, last: Cursor)
    requires c.offset < end && turn(c) == next && Ends(turn, next, end, turns, last)
    ensures Ends(turn, c, end, 1 + turns, last)
  {}

  lemma UnknownStep(pf: bytes, offset: u16, kind: u16, len: bytes)
    requires !Handled(kind) && Stands(pf, offset, U16(kind) + len) && offset + 4 < 0x1_0000
    ensures Loop(pf)(Cursor(offset, NOTHING)) == Cursor(offset + 4, NOTHING)
  {
    StandsConcat(pf, offset, U16(kind), len);
    Reads(pf, offset, kind);
  }

  /** The cursor after a number of turns. */
  function Turns(turn: Cursor -> Cursor, c: Cursor, n: nat): Cursor
  {
    if n == 0 then c else turn(Turns(turn, c, n - 1))
  }

  /** How far into the block extension `k` stands; the block's length for k == |exts|. */
  function Start(exts: seq<Ext>, k: nat): nat
    requires k <= |exts| && forall i :: 0 <= i < |exts| ==> ValidExt(exts[i])
  {
    if k == 0 then 0 else Start(exts, k - 1) + |Encode(exts[k - 1])|
  }

  lemma {:induction false} StandsFrom(pf: bytes, offset: u16, exts: seq<Ext>, k: nat)
    requires forall i :: 0 <= i < |exts| ==> ValidExt(exts[i])
    requires k <= |exts| && Stands(pf, offset, EncodeAll(exts))
    ensures Start(exts, k) + |EncodeAll(exts[k..])| == |EncodeAll(exts)|
    ensures Stands(pf, offset + Start(exts, k), EncodeAll(exts[k..]))
    decreases k
  {
    if k == 0 {
      assert exts[0..] == exts;
    } else {
      var rest := exts[k - 1..];
      StandsFrom(pf, offset, exts, k - 1);
      assert rest[1..] == exts[k..];
      StandsConcat(pf, offset + Start(exts, k - 1), Encode(rest[0]), EncodeAll(rest[1..]));
    }
  }

  lemma StandsEach(pf: bytes, offset: u16, exts: seq<Ext>, k: nat)
    requires forall i :: 0 <= i < |exts| ==> ValidExt(exts[i])
    requires k < |exts| && Stands(pf, offset, EncodeAll(exts))
    ensures Stands(pf, offset + Start(exts, k), Encode(exts[k])) && Start(exts, k + 1) <= |EncodeAll(exts)|
  {
    StandsFrom(pf, offset, exts, k);
    StandsFrom(pf, offset, exts, k + 1);
    var rest := exts[k..];
    StandsConcat(pf, offset + Start(exts, k), Encode(rest[0]), EncodeAll(rest[1..]));
  }

  /** Before extension `k`, or at the end, the cursor stands where it should. */
  ghost predicate InStep(turn: Cursor -> Cursor, offset: u16, exts: seq<Ext>, k: nat)
    requires k <= |exts| && forall i :: 0 <= i < |exts| ==> ValidExt(exts[i])
  {
    Turns(turn, Cursor(offset, NOTHING), k).offset == offset + Start(exts, k)
  }

  lemma InStepNext(pf: bytes, offset: u16, exts: seq<Ext>, k: nat)
    requires forall i :: 0 <= i < |exts| ==> ValidExt(exts[i])
    requires k < |exts| && Stands(pf, offset, EncodeAll(exts)) && offset + |EncodeAll(exts)| < 0x1_0000
    requires InStep(Loop(pf), offset, exts, k)
    ensures InStep(Loop(pf), offset, exts, k + 1) <==> Benign(exts[k])
  {
    var c := Turns(Loop(pf), Cursor(offset, NOTHING), k);
    StandsEach(pf, offset, exts, k);
    StepSkipsIff(pf, c, exts[k]);
    assert Turns(Loop(pf), Cursor(offset, NOTHING), k + 1) == Step(pf, c);
  }

  lemma {:induction false} BenignInStep(pf: bytes, offset: u16, exts: seq<Ext>, k: nat)
    requires forall i :: 0 <= i < |exts| ==> ValidExt(exts[i]) && Benign(exts[i])
    requires k <= |exts| && Stands(pf, offset, EncodeAll(exts)) && offset + |EncodeAll(exts)| < 0x1_0000
    ensures InStep(Loop(pf), offset, exts, k)
    decreases k
  {
    if k > 0 {
      BenignInStep(pf, offset, exts, k - 1);
      InStepNext(pf, offset, exts, k - 1);
    }
  }

  /** Over a block of well-formed extensions of any types the loop keeps in step with them, one turn each,
      exactly when every extension is of a handled type or empty. */
  lemma BlockReadIff(pf: bytes, offset: u16, exts: seq<Ext>)
    requires forall i :: 0 <= i < |exts| ==> ValidExt(exts[i])
    requires Stands(pf, offset, EncodeAll(exts)) && offset + |EncodeAll(exts)| < 0x1_0000
    ensures (forall k :: 0 <= k <= |exts| ==> InStep(Loop(pf), offset, exts, k))
            <==> (forall i :: 0 <= i < |exts| ==> Handled(TypeOf(exts[i])) || Body(exts[i]) == [])
    ensures Start(exts, |exts|) == |EncodeAll(exts)|
  {
    StandsFrom(pf, offset, exts, |exts|);
    if forall i :: 0 <= i < |exts| ==> Handled(TypeOf(exts[i])) || Body(exts[i]) == [] {
      assert forall i :: 0 <= i < |exts| ==> Benign(exts[i]);
      forall k | 0 <= k <= |exts|
        ensures InStep(Loop(pf), offset, exts, k)
      {
        BenignInStep(pf, offset, exts, k);
      }
    }
    if forall k :: 0 <= k <= |exts| ==> InStep(Loop(pf), offset, exts, k) {
      forall i | 0 <= i < |exts|
        ensures Handled(TypeOf(exts[i])) || Body(exts[i]) == []
      {
        assert InStep(Loop(pf), offset, exts, i) && InStep(Loop(pf), offset, exts, i + 1);
        InStepNext(pf, offset, exts, i);
      }
    }
  }

  /** unpack_extensions on the block `pf[offset..end]`, for the blocks the encoding describes. */
  method UnpackExtensions(pf: bytes, offset: u16, end: u16, ghost exts: seq<Ext>) returns (parsed: Parsed, stop: u16)
    requires forall i :: 0 <= i < |exts| ==> ValidExt(exts[i]) && Benign(exts[i])
    requires offset <= end && end - offset == |EncodeAll(exts)| && Stands(pf, offset, EncodeAll(exts))
    ensures stop == end && parsed == LearnAll(NOTHING, exts)
  {
    var c := Cursor(offset, NOTHING);
    ghost var left := exts;
    while c.offset < end
      invariant forall i :: 0 <= i < |left| ==> ValidExt(left[i]) && Benign(left[i])
      invariant c.offset <= end && end - c.offset == |EncodeAll(left)| && Stands(pf, c.offset, EncodeAll(left))
      invariant LearnAll(c.parsed, left) == LearnAll(NOTHING, exts)
      decreases end - c.offset
    {
      ghost var e := left[0];
      StandsConcat(pf, c.offset, Encode(e), EncodeAll(left[1..]));
      StepReads(pf, c, e);
      c := Step(pf, c);
      left := left[1..];
    }
    return c.parsed, c.offset;
  }
}
