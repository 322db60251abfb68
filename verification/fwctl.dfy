/** The firmware request/response protocol over two I/O ports (fwctl.c). */
module Fwctl {
  import opened Seqs

  const WORD: nat := 0x1_0000_0000
  const OP_GET: nat := 3
  const OP_GET_LEN: nat := 4
  const ENOENT: nat := 2
  const E2BIG: nat := 7
  const OID_SIZE: nat := 80
  const VALUE_SIZE: nat := 4096
  const SIG: seq<byte> := [0x42, 0x48, 0x59, 0x56]

  type word = w: int | 0 <= w < WORD

  // ---- Bytes and words ----

  function WordBytes(v: word): (r: seq<byte>)
    ensures |r| == 4
  {
    [v % 256, v / 256 % 256, v / 65536 % 256, v / 16777216]
  }

  function BytesWord(b: seq<byte>): word
    requires |b| == 4
  {
    (b[0] as int) + 256 * (b[1] as int) + 65536 * (b[2] as int) + 16777216 * (b[3] as int)
  }

  /** The bytes of a list of words. */
  function AllBytes(ws: seq<word>): (r: seq<byte>)
    ensures |r| == 4 * |ws|
  {
    if ws == [] then [] else WordBytes(ws[0]) + AllBytes(ws[1..])
  }

  /** The four bytes at `at`, zeroes past the end. */
  function Padded(bytes: seq<byte>, at: nat): (r: seq<byte>)
    ensures |r| == 4
  {
    seq(4, k requires 0 <= k < 4 => if at + k < |bytes| then bytes[at + k] else 0)
  }

  /** Words needed for `n` bytes. */
  function WordsFor(n: nat): nat { (n + 3) / 4 }

  /** An 8-byte little-endian length. */
  function SizeBytes(n: nat): (r: seq<byte>)
    requires n < WORD
    ensures |r| == 8
  {
    WordBytes(n) + [0, 0, 0, 0]
  }

  // ---- The object identifiers ----

  /** A named value; the name ends with a zero byte. */
  datatype Ctl = Ctl(oid: seq<byte>, data: seq<byte>)

  ghost predicate CtlsOk(ctls: seq<Ctl>) {
    forall i :: 0 <= i < |ctls| ==> Terminated(ctls[i].oid) && |ctls[i].data| <= VALUE_SIZE
  }

  /** One zero byte, at the end. */
  predicate Terminated(name: seq<byte>) {
    |name| > 0 && forall k :: 0 <= k < |name| ==> (name[k] == 0 <==> k == |name| - 1)
  }

  /** strncmp(a, b, |a|) == 0, for a terminated `b`. */
  predicate SameName(a: seq<byte>, b: seq<byte>) {
    a == [] || b == [] || (a[0] == b[0] && (a[0] == 0 || SameName(a[1..], b[1..])))
  }

  /** A name sent without its terminator matches every longer name; with it, exactly its own. */
  lemma {:induction false} SameNameMeans(a: seq<byte>, b: seq<byte>)
    requires Terminated(b)
    ensures (forall k :: 0 <= k < |a| ==> a[k] != 0) ==> (SameName(a, b) <==> a <= b)
    ensures Terminated(a) ==> (SameName(a, b) <==> a == b)
  {
    if a != [] && a[0] != 0 && b[0] != 0 {
      assert forall k :: 0 <= k < |b| - 1 ==> b[1..][k] == b[k + 1];
      assert forall k :: 0 <= k < |a| - 1 ==> a[1..][k] == a[k + 1];
      SameNameMeans(a[1..], b[1..]);
      assert a == [a[0]] + a[1..] && b == [b[0]] + b[1..];
    }
  }

  /** ctl_locate: the first value whose name matches. */
  function Locate(ctls: seq<Ctl>, name: seq<byte>): (r: Option<Ctl>)
    ensures r.Some? ==> r.value in ctls && SameName(name, r.value.oid)
    ensures r.None? ==> forall c :: c in ctls ==> !SameName(name, c.oid)
  {
    if ctls == [] then None else if SameName(name, ctls[0].oid) then Some(ctls[0]) else Locate(ctls[1..], name)
  }

  // ---- State ----

  datatype Phase = Dormant | IdentWait | IdentSend | Req | Resp

  datatype Op = NoOp | ErrOp | GetLenOp | GetOp

  datatype St = St(
    phase: Phase, ident: nat, exited: bool,
    reqCount: nat, size: nat, kind: word, txid: word, op: Op,
    str: seq<byte>, cnt: nat, errCode: nat,
    error: nat, respCount: nat, resp: seq<byte>, off: nat)

  function Fresh(s: St): St {
    s.(reqCount := 0, size := 0, kind := 0, txid := 0, op := NoOp, error := 0, respCount := 0, resp := [], off := 0)
  }

  /** Data words a request of `n` payload bytes has: whole words, and one for a short payload. */
  function DataWords(n: nat): nat { if n == 0 then 0 else if n < 4 then 1 else n / 4 }

  ghost predicate Inv(s: St) {
    && |s.str| == OID_SIZE && s.cnt <= OID_SIZE && s.errCode < WORD && s.error < WORD
    && (s.phase == IdentSend ==> s.ident < |SIG|)
    && (s.phase in [Dormant, IdentWait, IdentSend] ==> s == Fresh(s))
    && (s.phase == Req ==> ReqInv(s))
    && (s.phase == Resp ==> RespInv(s))
  }

  /** While data is awaited, what was stored and what is to come fit the identifier buffer. */
  ghost predicate ReqInv(s: St) {
    && s.reqCount <= 3 && s.respCount == 0 && s.off == 0
    && (s.reqCount == 0 ==> s == Fresh(s))
    && (0 < s.reqCount < 3 ==> s.size >= 12)
    && (s.reqCount == 3 ==> s.size > 0 && s.op != NoOp)
    && (s.reqCount == 3 && s.op != ErrOp ==> s.cnt + s.size <= OID_SIZE && (s.size >= 4 || s.cnt == 0))
  }

  ghost predicate RespInv(s: St) {
    s.respCount <= 4 && s.off % 4 == 0 && (s.respCount < 4 ==> s.off == 0) && (s.respCount == 4 ==> s.off < |s.resp|)
    && |s.resp| <= 8 + VALUE_SIZE
  }

  // ---- Requests ----

  function OpOf(kind: word): Op {
    if kind == OP_GET then GetOp else if kind == OP_GET_LEN then GetLenOp else ErrOp
  }

  /** What an operation answers: an error code and the bytes to send back. */
  function Answer(ctls: seq<Ctl>, op: Op, errCode: nat, name: seq<byte>): (nat, seq<byte>)
    requires CtlsOk(ctls)
  {
    if op == ErrOp || op == NoOp then (errCode, [])
    else
      match Locate(ctls, name)
      case None => (ENOENT, [])
      case Some(c) => (0, SizeBytes(|c.data|) + if op == GetOp then c.data else [])
  }

  function RequestDone(ctls: seq<Ctl>, s: St): St
    requires CtlsOk(ctls) && s.cnt <= |s.str|
  {
    var a := Answer(ctls, s.op, s.errCode, s.str[..s.cnt]);
    s.(phase := Resp, error := a.0, resp := a.1, off := 0)
  }

  function RequestStart(ctls: seq<Ctl>, s: St): St
    requires CtlsOk(ctls) && s.size >= 12 && s.cnt <= |s.str|
  {
    var len := s.size - 12;
    var op := OpOf(s.kind);
    var t := s.(size := len, reqCount := 3);
    var u :=
      if op == ErrOp then t.(op := ErrOp, errCode := ENOENT)
      else if len > OID_SIZE then t.(op := ErrOp, errCode := E2BIG)
      else t.(op := op, cnt := 0);
    if len == 0 then RequestDone(ctls, u) else u
  }

  function RequestData(ctls: seq<Ctl>, s: St, v: word): St
    requires CtlsOk(ctls) && Inv(s) && s.phase == Req && s.reqCount == 3
  {
    var left := if s.size <= 4 then 0 else s.size - 4;
    var t := s.(size := left);
    var u := if s.op == ErrOp then t else t.(str := Splice(s.str, s.cnt, WordBytes(v)), cnt := s.cnt + 4);
    if left < 4 then RequestDone(ctls, u) else u
  }

  /** A dword written to the port. A message shorter than its header ends the program. */
  function Outl(ctls: seq<Ctl>, s: St, v: word): St
    requires CtlsOk(ctls) && Inv(s)
  {
    if s.phase != Req || s.exited then s
    else if s.reqCount == 0 then (if v < 12 then s.(exited := true) else s.(size := v, reqCount := 1))
    else if s.reqCount == 1 then s.(kind := v, reqCount := 2)
    else if s.reqCount == 2 then RequestStart(ctls, s.(txid := v))
    else RequestData(ctls, s, v)
  }

  // ---- Responses ----

  /** The response, word by word: length, type, transaction, error, then the answer zero-padded. */
  function Response(s: St): (r: seq<word>)
    requires |s.resp| <= 8 + VALUE_SIZE && s.error < WORD
    ensures |r| == 4 + WordsFor(|s.resp|)
  {
    [16 + 4 * WordsFor(|s.resp|), s.kind, s.txid, s.error] + AnswerWords(s.resp)
  }

  function AnswerWords(resp: seq<byte>): (r: seq<word>)
    ensures |r| == WordsFor(|resp|) && forall k :: 0 <= k < |r| ==> r[k] == BytesWord(Padded(resp, 4 * k))
  {
    seq(WordsFor(|resp|), k requires 0 <= k < WordsFor(|resp|) => BytesWord(Padded(resp, 4 * k)))
  }

  /** How many words of the response have been read. */
  function Pos(s: St): nat { if s.respCount < 4 then s.respCount else 4 + s.off / 4 }

  /** A dword read from the port. */
  function Inl(s: St): (word, St)
    requires Inv(s)
  {
    if s.phase != Resp || s.exited then (0xffffffff, s)
    else
      var value: word :=
        if s.respCount == 0 then 16 + 4 * WordsFor(|s.resp|)
        else if s.respCount == 1 then s.kind
        else if s.respCount == 2 then s.txid
        else if s.respCount == 3 then s.error
        else BytesWord(Padded(s.resp, s.off));
      var t := if s.respCount < 4 then s.(respCount := s.respCount + 1) else s.(off := s.off + 4);
      (value, if t.respCount > 3 && t.off >= |t.resp| then Fresh(t).(phase := Req) else t)
  }

  /** A byte read from the port: the signature, one byte at a time. */
  function Inb(s: St): (byte, St)
    requires Inv(s)
  {
    if s.phase != IdentSend || s.exited then (0xff, s)
    else (SIG[s.ident], s.(ident := s.ident + 1, phase := if s.ident + 1 >= |SIG| then Req else IdentSend))
  }

  function Outw(s: St, v: word): St {
    if s.phase == IdentWait && v == 0 && !s.exited then s.(phase := IdentSend, ident := 0) else s
  }

  // ---- Every access sequence ----

  datatype Access = ReadByte | WriteWord(v: word) | ReadDword | WriteDword(v: word)

  function Step(ctls: seq<Ctl>, s: St, a: Access): St
    requires CtlsOk(ctls) && Inv(s)
  {
    match a
    case ReadByte => Inb(s).1
    case WriteWord(v) => Outw(s, v)
    case ReadDword => Inl(s).1
    case WriteDword(v) => Outl(ctls, s, v)
  }

  lemma {:induction false} AnswerFits(ctls: seq<Ctl>, op: Op, errCode: nat, name: seq<byte>)
    requires CtlsOk(ctls) && errCode < WORD
    ensures Answer(ctls, op, errCode, name).0 < WORD && |Answer(ctls, op, errCode, name).1| <= 8 + VALUE_SIZE
  {
    var c := Locate(ctls, name);
    if c.Some? {
      var i :| 0 <= i < |ctls| && ctls[i] == c.value;
    }
  }

  lemma {:induction false} OutlKeepsInv(ctls: seq<Ctl>, s: St, v: word)
    requires CtlsOk(ctls) && Inv(s)
    ensures Inv(Outl(ctls, s, v))
  {
    hide Locate, WordBytes, SizeBytes, Answer;
    if s.phase == Req && !s.exited && s.reqCount == 2 {
      StartKeepsInv(ctls, s.(txid := v));
    } else if s.phase == Req && !s.exited && s.reqCount == 3 {
      var left := if s.size <= 4 then 0 else s.size - 4;
      var u :=
        if s.op == ErrOp then s.(size := left)
        else s.(size := left, str := Splice(s.str, s.cnt, WordBytes(v)), cnt := s.cnt + 4);
      if left < 4 { DoneKeepsInv(ctls, u); }
    }
  }

  lemma {:induction false} DoneKeepsInv(ctls: seq<Ctl>, s: St)
    requires CtlsOk(ctls) && |s.str| == OID_SIZE && s.cnt <= OID_SIZE && s.errCode < WORD && s.respCount == 0
    ensures Inv(RequestDone(ctls, s))
  {
    AnswerFits(ctls, s.op, s.errCode, s.str[..s.cnt]);
  }

  lemma {:induction false} StartKeepsInv(ctls: seq<Ctl>, s: St)
    requires CtlsOk(ctls) && Inv(s) && s.phase == Req && s.reqCount == 2
    ensures Inv(RequestStart(ctls, s))
  {
    hide Locate, Answer;
    var op := OpOf(s.kind);
    var t := s.(size := 0, reqCount := 3);
    var u := if op == ErrOp then t.(op := ErrOp, errCode := ENOENT) else t.(op := op, cnt := 0);
    if s.size == 12 { DoneKeepsInv(ctls, u); }
  }

  lemma {:induction false} StepKeepsInv(ctls: seq<Ctl>, s: St, a: Access)
    requires CtlsOk(ctls) && Inv(s)
    ensures Inv(Step(ctls, s, a))
  {
    hide Outl, Padded;
    match a
    case ReadByte =>
    case WriteWord(_) =>
    case ReadDword =>
    case WriteDword(v) => OutlKeepsInv(ctls, s, v);
  }

  predicate Initial(s: St) {
    s == Fresh(s) && s.phase == IdentWait && !s.exited && |s.str| == OID_SIZE && s.cnt == 0 && s.errCode == 0
  }

  function Run(ctls: seq<Ctl>, s: St, accesses: seq<Access>): St
    requires CtlsOk(ctls) && Inv(s)
    ensures Inv(Run(ctls, s, accesses))
  {
    if accesses == [] then s
    else
      var t := Run(ctls, s, accesses[..|accesses| - 1]);
      StepKeepsInv(ctls, t, accesses[|accesses| - 1]);
      Step(ctls, t, accesses[|accesses| - 1])
  }

  /** In every sequence of accesses an identifier word is stored inside the buffer. */
  lemma {:induction false} StoreStaysInside(ctls: seq<Ctl>, s: St, accesses: seq<Access>)
    requires CtlsOk(ctls) && Initial(s)
    ensures Inv(s)
    ensures var t := Run(ctls, s, accesses);
      t.phase == Req && t.reqCount == 3 && t.op != ErrOp ==> t.cnt + 4 <= OID_SIZE
  {
  }

  // ---- What a request waits for, and what a response sends ----

  /** Dwords the request still needs before it is answered. */
  function Awaited(s: St): nat
    requires s.phase == Req && s.reqCount > 0 && (s.reqCount < 3 ==> s.size >= 12)
  {
    if s.reqCount < 3 then 3 - s.reqCount + DataWords(s.size - 12) else DataWords(s.size)
  }

  /** Each dword written brings the answer one dword closer; the last one brings it. Nothing else the
      guest does meanwhile matters. */
  lemma {:induction false} RequestCountsDown(ctls: seq<Ctl>, s: St, v: word)
    requires CtlsOk(ctls) && Inv(s) && s.phase == Req && !s.exited && s.reqCount > 0
    ensures Awaited(s) > 0 && Inl(s).1 == Inb(s).1 == Outw(s, v) == s
    ensures var t := Outl(ctls, s, v);
      if Awaited(s) == 1 then t.phase == Resp && Pos(t) == 0
      else t.phase == Req && t.reqCount > 0 && (t.reqCount < 3 ==> t.size >= 12) && Awaited(t) == Awaited(s) - 1
  {
    hide Locate, WordBytes, SizeBytes, Answer;
  }

  /** Each dword read is the next one of the response, whose first says how long it is; the last one
      read makes the machine ready for a new request. */
  lemma {:induction false} ResponseIsReadInOrder(s: St, v: word, ctls: seq<Ctl>)
    requires CtlsOk(ctls) && Inv(s) && s.phase == Resp && !s.exited
    ensures Pos(s) < |Response(s)| && Inl(s).0 == Response(s)[Pos(s)]
    ensures Response(s)[0] == 4 * |Response(s)|
    ensures var t := Inl(s).1;
      if Pos(s) + 1 == |Response(s)| then t.phase == Req && t == Fresh(t)
      else
        && t.phase == Resp && |t.resp| <= 8 + VALUE_SIZE && t.error < WORD
        && Response(t) == Response(s) && Pos(t) == Pos(s) + 1
    ensures Outl(ctls, s, v) == Inb(s).1 == Outw(s, v) == s
  {
    hide Padded, BytesWord;
  }

  /** The answer words are the answer's bytes, then zeroes up to a whole word. */
  lemma {:induction false} AnswerIsPadded(resp: seq<byte>, k: nat)
    requires k < WordsFor(|resp|)
    ensures var b := WordBytes(AnswerWords(resp)[k]);
      forall j :: 0 <= j < 4 ==> b[j] == if 4 * k + j < |resp| then resp[4 * k + j] else 0
  {
    var b := Padded(resp, 4 * k);
    BytesRoundTrip(b);
  }

  lemma {:induction false} BytesRoundTrip(b: seq<byte>)
    requires |b| == 4
    ensures WordBytes(BytesWord(b)) == b
  {
    Digits(b[0], b[1], b[2], b[3]);
  }

  lemma {:induction false} Digits(b0: byte, b1: byte, b2: byte, b3: byte)
    ensures var v := b0 as int + 256 * (b1 as int) + 65536 * (b2 as int) + 16777216 * (b3 as int);
      v % 256 == b0 && v / 256 % 256 == b1 && v / 65536 % 256 == b2 && v / 16777216 == b3
  {
    var v := b0 as int + 256 * (b1 as int) + 65536 * (b2 as int) + 16777216 * (b3 as int);
    assert v / 256 == b1 as int + 256 * (b2 as int) + 65536 * (b3 as int);
    assert v / 65536 == b2 as int + 256 * (b3 as int);
  }

  // ---- A whole exchange ----

  function Sent(ctls: seq<Ctl>, s: St, ws: seq<word>): (t: St)
    requires CtlsOk(ctls) && Inv(s)
    ensures Inv(t)
    decreases |ws|
  {
    if ws == [] then s
    else
      OutlKeepsInv(ctls, s, ws[0]);
      Sent(ctls, Outl(ctls, s, ws[0]), ws[1..])
  }

  /** The reply a message calls for. */
  function Reply(ctls: seq<Ctl>, len: nat, kind: word, data: seq<word>): (nat, seq<byte>)
    requires CtlsOk(ctls)
  {
    if OpOf(kind) == ErrOp then (ENOENT, [])
    else if len > OID_SIZE then (E2BIG, [])
    else Answer(ctls, OpOf(kind), 0, AllBytes(data))
  }

  /** The answer is prepared from what was stored before and the data that follows. */
  ghost predicate Answered(ctls: seq<Ctl>, s: St, r: St, name: seq<byte>)
    requires CtlsOk(ctls)
  {
    && r.phase == Resp && Pos(r) == 0 && r.kind == s.kind && r.txid == s.txid
    && (r.error, r.resp) == Answer(ctls, s.op, s.errCode, name)
  }

  lemma {:induction false} DataPhase(ctls: seq<Ctl>, s: St, data: seq<word>)
    requires CtlsOk(ctls) && Inv(s) && s.phase == Req && !s.exited && s.reqCount == 3 && |data| == DataWords(s.size)
    ensures Answered(ctls, s, Sent(ctls, s, data), if s.op == ErrOp then [] else s.str[..s.cnt] + AllBytes(data))
    decreases |data|
  {
    hide Locate, WordBytes, SizeBytes;
    var t := Outl(ctls, s, data[0]);
    OutlKeepsInv(ctls, s, data[0]);
    if s.size < 8 {
      OneWord(data);
      assert Sent(ctls, t, data[1..]) == t;
      assert s.op != ErrOp ==> Splice(s.str, s.cnt, WordBytes(data[0]))[..s.cnt + 4] == s.str[..s.cnt] + AllBytes(data);
    } else {
      DataPhase(ctls, t, data[1..]);
      assert s.op != ErrOp ==>
          (s.str[..s.cnt] + WordBytes(data[0])) + AllBytes(data[1..]) == s.str[..s.cnt] + AllBytes(data);
    }
  }

  lemma {:induction false} OneWord(data: seq<word>)
    requires |data| == 1
    ensures data[1..] == [] && AllBytes(data) == WordBytes(data[0])
  {
    assert AllBytes(data[1..]) == [];
  }

  lemma {:induction false} NoWords(ctls: seq<Ctl>, s: St, data: seq<word>)
    requires CtlsOk(ctls) && Inv(s) && data == []
    ensures Sent(ctls, s, data) == s && AllBytes(data) == [] && s.str[..0] == []
  {
  }

  lemma {:induction false} SentCons(ctls: seq<Ctl>, s: St, w: word, ws: seq<word>)
    requires CtlsOk(ctls) && Inv(s)
    ensures Inv(Outl(ctls, s, w)) && Sent(ctls, s, [w] + ws) == Sent(ctls, Outl(ctls, s, w), ws)
  {
    OutlKeepsInv(ctls, s, w);
    assert ([w] + ws)[1..] == ws;
  }

  /** A message of any length and type is answered after exactly its words, with its own type and
      transaction, by the reply it calls for. */
  lemma {:induction false} Exchange(ctls: seq<Ctl>, s: St, len: nat, kind: word, txid: word, data: seq<word>)
    requires CtlsOk(ctls) && Inv(s) && s.phase == Req && s.reqCount == 0 && !s.exited
    requires 12 + len < WORD && |data| == DataWords(len)
    ensures var r := Sent(ctls, s, [12 + len, kind, txid] + data);
      && r.phase == Resp && Pos(r) == 0 && r.kind == kind && r.txid == txid
      && (r.error, r.resp) == Reply(ctls, len, kind, data)
  {
    hide Locate, WordBytes, SizeBytes, AllBytes, Sent;
    var s1 := Outl(ctls, s, 12 + len);
    SentCons(ctls, s, 12 + len, [kind, txid] + data);
    var s2 := Outl(ctls, s1, kind);
    SentCons(ctls, s1, kind, [txid] + data);
    var s3 := Outl(ctls, s2, txid);
    SentCons(ctls, s2, txid, data);
    assert [12 + len, kind, txid] + data == [12 + len] + ([kind, txid] + data);
    assert [kind, txid] + data == [kind] + ([txid] + data);
    StartOutcome(ctls, s2, len, kind, txid);
    if len > 0 {
      DataPhase(ctls, s3, data);
      assert s3.op != ErrOp ==> s3.str[..0] + AllBytes(data) == AllBytes(data);
    } else {
      NoWords(ctls, s3, data);
    }
  }

  lemma {:induction false} StartOutcome(ctls: seq<Ctl>, s: St, len: nat, kind: word, txid: word)
    requires CtlsOk(ctls) && Inv(s) && s.phase == Req && !s.exited && s.reqCount == 2 && s.size == 12 + len
    requires s.kind == kind
    ensures var t := Outl(ctls, s, txid);
      var op := if OpOf(kind) == ErrOp || len > OID_SIZE then ErrOp else OpOf(kind);
      var err := if OpOf(kind) == ErrOp then ENOENT else if len > OID_SIZE then E2BIG else s.errCode;
      && t.kind == kind && t.txid == txid && t.op == op && t.errCode == err && !t.exited
      && (op != ErrOp ==> t.cnt == 0) && t.cnt <= |t.str|
      && (len > 0 ==> t.phase == Req && t.reqCount == 3 && t.size == len)
      && (len == 0 ==> t.phase == Resp && Pos(t) == 0 && (t.error, t.resp) == Answer(ctls, op, err, t.str[..t.cnt]))
  {
    hide Answer;
  }

  // ---- The back end ----

  class Backend {
    const ctls: seq<Ctl>
    const str: array<byte>
    var phase: Phase
    var ident: nat
    var exited: bool
    var reqCount: nat
    var size: nat
    var kind: word
    var txid: word
    var op: Op
    var cnt: nat
    var errCode: nat
    var error: nat
    var respCount: nat
    var resp: seq<byte>
    var off: nat

    ghost function State(): St
      reads this, str
    {
      St(phase, ident, exited, reqCount, size, kind, txid, op, str[..], cnt, errCode, error, respCount, resp, off)
    }

    ghost predicate Valid()
      reads this, str
    {
      CtlsOk(ctls) && Inv(State())
    }

    constructor (ctls: seq<Ctl>)
      requires CtlsOk(ctls)
      ensures Valid() && Initial(State()) && this.ctls == ctls && fresh(str)
    {
      this.ctls := ctls;
      str := new byte[OID_SIZE](_ => 0);
      phase, ident, exited := IdentWait, 0, false;
      reqCount, size, kind, txid, op, cnt, errCode := 0, 0, 0, 0, NoOp, 0, 0;
      error, respCount, resp, off := 0, 0, [], 0;
    }

    /** fwctl_request_done. */
    method FinishRequest()
      requires CtlsOk(ctls) && cnt <= str.Length
      modifies this
      ensures State() == old(RequestDone(ctls, State()))
    {
      off := 0;
      if op == ErrOp || op == NoOp {
        error, resp := errCode, [];
      } else {
        var name := str[..cnt];
        assert name == str[..][..cnt];
        match Locate(ctls, name) {
          case None => error, resp := ENOENT, [];
          case Some(c) =>
            AnswerFits(ctls, op, 0, name);
            error := 0;
            if op == GetOp { resp := SizeBytes(|c.data|) + c.data; } else { resp := SizeBytes(|c.data|); }
        }
      }
      phase := Resp;
    }

    /** fwctl_request_start. */
    method StartRequest()
      requires CtlsOk(ctls) && size >= 12 && cnt <= str.Length
      modifies this
      ensures State() == old(RequestStart(ctls, State()))
    {
      hide RequestDone;
      size := size - 12;
      reqCount := 3;
      op := OpOf(kind);
      if op == ErrOp {
        errCode := ENOENT;
      } else if size > OID_SIZE {
        op, errCode := ErrOp, E2BIG;
      } else {
        cnt := 0;
      }
      if size == 0 { FinishRequest(); }
    }

    /** fget_data. */
    method StoreWord(bytes: seq<byte>)
      requires |bytes| == 4 && cnt + 4 <= str.Length
      modifies this`cnt, str
      ensures cnt == old(cnt) + 4 && str[..] == Splice(old(str[..]), old(cnt), bytes)
    {
      str[cnt], str[cnt + 1], str[cnt + 2], str[cnt + 3] := bytes[0], bytes[1], bytes[2], bytes[3];
      cnt := cnt + 4;
    }

    /** fwctl_request_data. */
    method TakeData(value: word)
      requires Valid() && phase == Req && reqCount == 3
      modifies this, str
      ensures State() == old(RequestData(ctls, State(), value))
    {
      hide RequestDone, WordBytes;
      size := if size <= 4 then 0 else size - 4;
      if op != ErrOp {
        StoreWord(WordBytes(value));
      }
      if size < 4 { FinishRequest(); }
    }

    method WritePort(value: word)
      requires Valid()
      modifies this, str
      ensures Valid() && State() == old(Outl(ctls, State(), value))
    {
      hide RequestData, RequestStart;
      OutlKeepsInv(ctls, State(), value);
      if phase != Req || exited { return; }
      match reqCount {
        case 0 => if value < 12 { exited := true; } else { size, reqCount := value, 1; }
        case 1 => kind, reqCount := value, 2;
        case 2 =>
          txid := value;
          StartRequest();
        case _ => TakeData(value);
      }
    }

    /** fwctl_response. */
    method ReadPort() returns (value: word)
      requires Valid()
      modifies this
      ensures Valid() && (value, State()) == old(Inl(State()))
    {
      hide Outl, Outw, Inb, BytesWord, Padded;
      StepKeepsInv(ctls, State(), ReadDword);
      if phase != Resp || exited { return 0xffffffff; }
      match respCount {
        case 0 => value, respCount := 16 + 4 * WordsFor(|resp|), 1;
        case 1 => value, respCount := kind, 2;
        case 2 => value, respCount := txid, 3;
        case 3 => value, respCount := error, 4;
        case _ =>
          value := DataWord(resp, off);
          off := off + 4;
      }
      if respCount > 3 && off >= |resp| {
        ResponseDone();
        phase := Req;
      }
    }

    /** fwctl_response_done. */
    method ResponseDone()
      modifies this
      ensures State() == old(Fresh(State()))
    {
      ResetRequest();
      ResetAnswer();
    }

    method ResetRequest()
      modifies this`reqCount, this`size, this`kind, this`txid, this`op
      ensures reqCount == size == kind == txid == 0 && op == NoOp
    {
      reqCount, size, kind, txid, op := 0, 0, 0, 0, NoOp;
    }

    method ResetAnswer()
      modifies this`error, this`respCount, this`resp, this`off
      ensures error == respCount == off == 0 && resp == []
    {
      error, respCount, resp, off := 0, 0, [], 0;
    }

    method ReadByte() returns (value: byte)
      requires Valid()
      modifies this`phase, this`ident
      ensures Valid() && (value, State()) == old(Inb(State()))
    {
      value := 0xff;
      if phase == IdentSend && !exited {
        value, ident := SIG[ident], ident + 1;
        if ident >= |SIG| { phase := Req; }
      }
    }

    method WriteWord(value: word)
      requires Valid()
      modifies this`phase, this`ident
      ensures Valid() && State() == old(Outw(State(), value))
    {
      if phase == IdentWait && value == 0 && !exited { phase, ident := IdentSend, 0; }
    }
  }

  /** The answer's word at `off`: a whole one, or the rest. */
  method DataWord(resp: seq<byte>, off: nat) returns (value: word)
    requires off < |resp|
    ensures value == BytesWord(Padded(resp, off))
  {
    hide BytesWord;
    if |resp| - off >= 4 {
      assert resp[off..off + 4] == Padded(resp, off);
      value := BytesWord(resp[off..off + 4]);
    } else {
      value := SendRest(resp[off..]);
      assert Padded(resp[off..], 0) == Padded(resp, off);
    }
  }

  /** fwctl_send_rest: the last bytes, zero-padded to a word. */
  method SendRest(rest: seq<byte>) returns (w: word)
    requires |rest| < 4
    ensures w == BytesWord(Padded(rest, 0))
  {
    hide BytesWord;
    var c := new byte[4](_ => 0);
    for i := 0 to |rest|
      invariant forall k :: 0 <= k < 4 ==> c[k] == if k < i then rest[k] else 0
    {
      c[i] := rest[i];
    }
    assert c[..] == Padded(rest, 0);
    w := BytesWord(c[..]);
  }
}
