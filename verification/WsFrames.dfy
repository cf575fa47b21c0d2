/** The WebSocket frame splitter of an upgraded connection, against an encoder
    that follows sections 5.2 and 5.3 of RFC 6455. */
module WsFrames {
  import opened Basics

  const MAX_PAYLOAD := 8 * 1024 * 1024
  const PREVIEW_BYTES := 256
  const CLOSE := 8

  // ----- Bytes ---------------------------------------------------------------

  /** Exclusive or, one bit at a time. */
  function BitXor(x: nat, y: nat): nat {
    if x == 0 && y == 0 then 0
    else 2 * BitXor(x / 2, y / 2) + if x % 2 == y % 2 then 0 else 1
  }

  lemma XorHalf(x: nat, y: nat)
    ensures BitXor(x, y) / 2 == BitXor(x / 2, y / 2)
    ensures BitXor(x, y) % 2 == if x % 2 == y % 2 then 0 else 1
  {
  }

  lemma {:induction false} XorTwice(x: nat, y: nat)
    ensures BitXor(BitXor(x, y), y) == x
  {
    if x != 0 || y != 0 {
      XorTwice(x / 2, y / 2);
      XorHalf(x, y);
      XorHalf(BitXor(x, y), y);
    }
  }

  lemma {:induction false} XorBound(x: nat, y: nat, m: nat)
    requires x < m && y < m && (m == 1 || m == 2 || m == 4 || m == 8 || m == 16 || m == 32 || m == 64 || m == 128 || m == 256)
    ensures BitXor(x, y) < m
  {
    if m > 1 { XorBound(x / 2, y / 2, m / 2); }
  }

  function Bit(x: nat, k: nat): nat { if k == 0 then x % 2 else Bit(x / 2, k - 1) }

  /** A bit is set in the result exactly when it is set in one of the two. */
  lemma {:induction false} XorBits(x: nat, y: nat, k: nat)
    ensures Bit(BitXor(x, y), k) == if Bit(x, k) == Bit(y, k) then 0 else 1
  {
    XorHalf(x, y);
    if k > 0 { XorBits(x / 2, y / 2, k - 1); }
  }

  function Xor(x: Byte, y: Byte): (r: Byte)
  {
    XorBound(x, y, 256);
    BitXor(x, y)
  }

  function DecodeBE(s: seq<Byte>): nat {
    if s == [] then 0 else DecodeBE(s[..|s| - 1]) * 256 + s[|s| - 1] as int
  }

  function EncodeBE(n: nat, k: nat): (s: seq<Byte>)
    ensures |s| == k
  {
    if k == 0 then [] else EncodeBE(n / 256, k - 1) + [n % 256]
  }

  function Pow256(k: nat): nat { if k == 0 then 1 else 256 * Pow256(k - 1) }

  lemma {:induction false} BigEndianRoundTrip(n: nat, k: nat)
    requires n < Pow256(k)
    ensures DecodeBE(EncodeBE(n, k)) == n
  {
    if k > 0 {
      BigEndianRoundTrip(n / 256, k - 1);
      var s := EncodeBE(n, k);
      assert s[..k - 1] == EncodeBE(n / 256, k - 1);
    }
  }

  function Masked(key: seq<Byte>, data: seq<Byte>): (r: seq<Byte>)
    requires |key| == 4
    ensures |r| == |data|
  {
    seq(|data|, i requires 0 <= i < |data| => Xor(data[i], key[i % 4]))
  }

  lemma MaskedTwice(key: seq<Byte>, data: seq<Byte>)
    requires |key| == 4
    ensures Masked(key, Masked(key, data)) == data
  {
    forall i | 0 <= i < |data| ensures Xor(Xor(data[i], key[i % 4]), key[i % 4]) == data[i] {
      XorTwice(data[i], key[i % 4]);
    }
  }

  // ----- Encoder -------------------------------------------------------------

  datatype LengthForm = Seven | Sixteen | SixtyFour

  /** flags are FIN and the reserved bits. An empty key means unmasked. */
  datatype Frame = Frame(flags: nat, opcode: nat, form: LengthForm, key: seq<Byte>, payload: seq<Byte>)

  ghost predicate Encodable(f: Frame) {
    && f.flags < 16 && f.opcode < 16
    && (f.key == [] || |f.key| == 4)
    && |f.payload| <= MAX_PAYLOAD
    && (f.form.Seven? ==> |f.payload| < 126)
    && (f.form.Sixteen? ==> |f.payload| < 65536)
  }

  function LengthCode(f: Frame): nat {
    match f.form
    case Seven => |f.payload|
    case Sixteen => 126
    case SixtyFour => 127
  }

  function ExtLen(code: nat): nat { if code == 126 then 2 else if code == 127 then 8 else 0 }

  function Header(f: Frame): seq<Byte>
    requires Encodable(f)
  {
    var code := LengthCode(f);
    [f.flags * 16 + f.opcode, (if f.key == [] then 0 else 128) + code] + EncodeBE(|f.payload|, ExtLen(code)) + f.key
  }

  function Encode(f: Frame): seq<Byte>
    requires Encodable(f)
  {
    Header(f) + Wire(f)
  }

  function EncodeAll(frames: seq<Frame>): seq<Byte>
    requires forall i :: 0 <= i < |frames| ==> Encodable(frames[i])
  {
    if frames == [] then [] else Encode(frames[0]) + EncodeAll(frames[1..])
  }

  // ----- Splitter ------------------------------------------------------------

  /** What is emitted for a frame: opcode, readable preview, true length. */
  datatype Entry = Entry(opcode: nat, preview: seq<Byte>, fullLen: nat)

  /** Got: an entry, how much was consumed, and whether the direction ends. */
  datatype Parsed = Stop | Got(entry: Entry, used: nat, last: bool)

  function Min(a: nat, b: nat): nat { if a < b then a else b }

  function Preview(input: seq<Byte>, keyAt: nat, masked: bool, len: nat): seq<Byte>
    requires keyAt + (if masked then 4 else 0) + Min(len, PREVIEW_BYTES) <= |input|
  {
    var start := keyAt + if masked then 4 else 0;
    var shown := input[start..start + Min(len, PREVIEW_BYTES)];
    if masked then Masked(input[keyAt..keyAt + 4], shown) else shown
  }

  /** The rest of a frame whose key, or payload if there is none, begins at keyAt. */
  function ParseBody(input: seq<Byte>, opcode: nat, masked: bool, keyAt: nat, len: nat): (r: Parsed)
    requires 2 <= keyAt <= |input|
    ensures r.Got? ==> 2 <= r.used <= |input|
  {
    var start := keyAt + if masked then 4 else 0;
    if len > MAX_PAYLOAD || |input| < start + Min(len, PREVIEW_BYTES) then Stop
    else
      var entry := Entry(opcode, Preview(input, keyAt, masked, len), len);
      if |input| < start + len then Got(entry, |input|, true)
      else Got(entry, start + len, opcode == CLOSE)
  }

  /** One frame off the front of the stream. */
  function ParseFrame(input: seq<Byte>): (r: Parsed)
    ensures r.Got? ==> 2 <= r.used <= |input|
  {
    if |input| < 2 then Stop
    else
      var opcode, masked, code := input[0] % 16, input[1] >= 128, input[1] % 128;
      var keyAt := 2 + ExtLen(code);
      if |input| < keyAt then Stop
      else
        var len := if ExtLen(code) == 0 then code else DecodeBE(input[2..keyAt]);
        ParseBody(input, opcode, masked, keyAt, len)
  }

  function Split(input: seq<Byte>): seq<Entry>
    decreases |input|
  {
    var r := ParseFrame(input);
    if r.Stop? then []
    else if r.last then [r.entry]
    else [r.entry] + Split(input[r.used..])
  }

  /** Unmasking of the preview buffer, in place. */
  method Unmask(preview: array<Byte>, key: seq<Byte>)
    requires |key| == 4
    modifies preview
    ensures preview[..] == Masked(key, old(preview[..]))
  {
    for i := 0 to preview.Length
      invariant forall j :: 0 <= j < i ==> preview[j] == Xor(old(preview[j]), key[j % 4])
      invariant forall j :: i <= j < preview.Length ==> preview[j] == old(preview[j])
    {
      preview[i] := Xor(preview[i], key[i % 4]);
    }
  }

  method ReadPreview(rest: seq<Byte>, keyAt: nat, masked: bool, len: nat) returns (shown: seq<Byte>)
    requires keyAt + (if masked then 4 else 0) + Min(len, PREVIEW_BYTES) <= |rest|
    ensures shown == Preview(rest, keyAt, masked, len)
  {
    var pos := keyAt + if masked then 4 else 0;
    var previewN := if len > PREVIEW_BYTES then PREVIEW_BYTES else len;
    shown := rest[pos..pos + previewN];
    if masked {
      shown := Unmasked(shown, rest[keyAt..pos]);
    }
  }

  method Unmasked(wire: seq<Byte>, key: seq<Byte>) returns (clear: seq<Byte>)
    requires |key| == 4
    ensures clear == Masked(key, wire)
  {
    var preview := new Byte[|wire|](i requires 0 <= i < |wire| => wire[i]);
    assert preview[..] == wire;
    Unmask(preview, key);
    clear := preview[..];
  }

  /** One pass of the reading loop, over what the reader still has. */
  method ReadFrame(rest: seq<Byte>) returns (r: Parsed)
    ensures r == ParseFrame(rest)
  {
    if |rest| < 2 {
      return Stop;
    }
    var opcode, masked, len := rest[0] % 16, rest[1] >= 128, rest[1] as int % 128;
    var pos := 2 + ExtLen(len);
    if pos > 2 {
      if pos > |rest| {
        return Stop;
      }
      len := DecodeBE(rest[2..pos]);
    }
    r := ReadBody(rest, opcode, masked, pos, len);
  }

  method ReadBody(rest: seq<Byte>, opcode: nat, masked: bool, keyAt: nat, len: nat) returns (r: Parsed)
    requires 2 <= keyAt <= |rest|
    ensures r == ParseBody(rest, opcode, masked, keyAt, len)
  {
    if len > MAX_PAYLOAD {
      return Stop;
    }
    var pos := keyAt;
    if masked {
      if pos + 4 > |rest| {
        return Stop;
      }
      pos := pos + 4;
    }
    if pos + Min(len, PREVIEW_BYTES) > |rest| {
      return Stop;
    }
    var shown := ReadPreview(rest, keyAt, masked, len);
    if pos + len > |rest| {
      return Got(Entry(opcode, shown, len), |rest|, true);
    }
    return Got(Entry(opcode, shown, len), pos + len, opcode == CLOSE);
  }

  method ConsumeWSFrames(input: seq<Byte>) returns (out: seq<Entry>)
    ensures out == Split(input)
  {
    out := [];
    var rest := input;
    while true
      invariant out + Split(rest) == Split(input)
      decreases |rest|
    {
      var r := ReadFrame(rest);
      if r.Stop? {
        return;
      }
      out := out + [r.entry];
      if r.last {
        return;
      }
      rest := rest[r.used..];
    }
  }

  // ----- Round trip ----------------------------------------------------------

  function EntryOf(f: Frame): Entry {
    Entry(f.opcode, f.payload[..Min(|f.payload|, PREVIEW_BYTES)], |f.payload|)
  }

  /** The frames up to and including the first close. */
  function UpToClose(frames: seq<Frame>): seq<Frame> {
    if frames == [] then []
    else if frames[0].opcode == CLOSE then [frames[0]]
    else [frames[0]] + UpToClose(frames[1..])
  }

  function EntriesOf(frames: seq<Frame>): seq<Entry> {
    if frames == [] then [] else [EntryOf(frames[0])] + EntriesOf(frames[1..])
  }

  lemma Powers()
    ensures Pow256(2) == 65536 && Pow256(8) == 0x1_0000_0000_0000_0000
  {
    assert Pow256(1) == 256 && Pow256(0) == 1;
    assert Pow256(4) == 256 * (256 * Pow256(2));
    assert Pow256(8) == 256 * (256 * (256 * (256 * Pow256(4))));
  }

  /** The length field decodes to the true length in each of its three forms. */
  lemma LengthDecodes(f: Frame)
    requires Encodable(f)
    ensures var code := LengthCode(f);
            code < 128 && |f.payload| == if ExtLen(code) == 0 then code else DecodeBE(EncodeBE(|f.payload|, ExtLen(code)))
  {
    Powers();
    if !f.form.Seven? {
      BigEndianRoundTrip(|f.payload|, ExtLen(LengthCode(f)));
    }
  }

  lemma HeaderFields(f: Frame, rest: seq<Byte>)
    requires Encodable(f)
    ensures var input := Header(f) + rest;
            var keyAt := 2 + ExtLen(LengthCode(f));
            && |Header(f)| == keyAt + |f.key| && |input| >= 2
            && input[0] == f.flags * 16 + f.opcode
            && input[1] == (if f.key == [] then 0 else 128) + LengthCode(f)
            && input[2..keyAt] == EncodeBE(|f.payload|, ExtLen(LengthCode(f)))
            && input[keyAt..keyAt + |f.key|] == f.key
            && input[keyAt + |f.key|..] == rest
  {
    var ext := ExtLen(LengthCode(f));
    var be := EncodeBE(|f.payload|, ext);
    var input := Header(f) + rest;
    assert |be| == ext;
    assert Header(f) == [f.flags * 16 + f.opcode, (if f.key == [] then 0 else 128) + LengthCode(f)] + be + f.key;
    assert input[2..2 + ext] == be;
    assert input[2 + ext..2 + ext + |f.key|] == f.key;
  }

  lemma MaskedPrefix(key: seq<Byte>, data: seq<Byte>, n: nat)
    requires |key| == 4 && n <= |data|
    ensures Masked(key, data)[..n] == Masked(key, data[..n])
  {
  }

  /** The payload as it travels. */
  function Wire(f: Frame): seq<Byte>
    requires Encodable(f)
  {
    if f.key == [] then f.payload else Masked(f.key, f.payload)
  }

  /** The preview of an encoded frame is the front of its clear payload. */
  lemma PreviewIsClear(f: Frame, input: seq<Byte>, keyAt: nat, n: nat)
    requires Encodable(f) && n == Min(|f.payload|, PREVIEW_BYTES)
    requires keyAt + |f.key| + n <= |input|
    requires input[keyAt..keyAt + |f.key|] == f.key
    requires input[keyAt + |f.key|..keyAt + |f.key| + n] == Wire(f)[..n]
    ensures Preview(input, keyAt, f.key != [], |f.payload|) == f.payload[..n]
  {
    if f.key != [] {
      MaskedPrefix(f.key, f.payload, n);
      MaskedTwice(f.key, f.payload[..n]);
      assert Preview(input, keyAt, true, |f.payload|) == Masked(f.key, Masked(f.key, f.payload[..n]));
    }
  }

  lemma AfterHead(head: seq<Byte>, body: seq<Byte>, tail: seq<Byte>, n: nat)
    requires n <= |body|
    ensures (head + (body + tail))[|head|..|head| + n] == body[..n]
  {
  }

  lemma EncodedIsHeaderAndBody(f: Frame, tail: seq<Byte>)
    requires Encodable(f)
    ensures Encode(f) + tail == Header(f) + (Wire(f) + tail)
  {
    assert Encode(f) == Header(f) + Wire(f);
  }

  lemma BodyAt(f: Frame, tail: seq<Byte>, n: nat)
    requires Encodable(f) && n <= |f.payload|
    ensures var input, start := Encode(f) + tail, 2 + ExtLen(LengthCode(f)) + |f.key|;
            && |input| == start + |f.payload| + |tail| && |Encode(f)| == start + |f.payload|
            && input[start..start + n] == Wire(f)[..n]
  {
    HeaderFields(f, []);
    EncodedIsHeaderAndBody(f, tail);
    AfterHead(Header(f), Wire(f), tail, n);
  }

  /** The two header bytes, taken apart. */
  lemma HeaderBytes(flags: nat, opcode: nat, masked: bool, code: nat)
    requires opcode < 16 && code < 128
    ensures (flags * 16 + opcode) % 16 == opcode
    ensures var b := (if masked then 128 else 0) + code; (b >= 128 <==> masked) && b % 128 == code
  {
  }

  lemma HeaderParses(f: Frame, tail: seq<Byte>)
    requires Encodable(f)
    ensures var input, keyAt := Encode(f) + tail, 2 + ExtLen(LengthCode(f));
            && |input| >= keyAt + |f.key| && input[0] % 16 == f.opcode
            && (input[1] >= 128 <==> f.key != []) && input[1] % 128 == LengthCode(f)
            && input[2..keyAt] == EncodeBE(|f.payload|, ExtLen(LengthCode(f)))
            && input[keyAt..keyAt + |f.key|] == f.key
  {
    EncodedIsHeaderAndBody(f, tail);
    HeaderFields(f, Wire(f) + tail);
    HeaderCodes(f, (Encode(f) + tail)[0], (Encode(f) + tail)[1]);
  }

  lemma HeaderCodes(f: Frame, b0: Byte, b1: Byte)
    requires Encodable(f)
    requires b0 == f.flags * 16 + f.opcode && b1 == (if f.key == [] then 0 else 128) + LengthCode(f)
    ensures b0 % 16 == f.opcode && (b1 >= 128 <==> f.key != []) && b1 % 128 == LengthCode(f)
  {
    LengthDecodes(f);
    HeaderBytes(f.flags, f.opcode, f.key != [], LengthCode(f));
  }

  /** One encoded frame in front of anything is parsed exactly. */
  lemma ParseEncoded(f: Frame, tail: seq<Byte>)
    requires Encodable(f)
    ensures ParseFrame(Encode(f) + tail) == Got(EntryOf(f), |Encode(f)|, f.opcode == CLOSE)
  {
    HeaderParses(f, tail);
    LengthDecodes(f);
    BodyAt(f, tail, Min(|f.payload|, PREVIEW_BYTES));
    PreviewIsClear(f, Encode(f) + tail, 2 + ExtLen(LengthCode(f)), Min(|f.payload|, PREVIEW_BYTES));
  }

  lemma SplitFrame(f: Frame, more: seq<Byte>)
    requires Encodable(f)
    ensures Split(Encode(f) + more) == if f.opcode == CLOSE then [EntryOf(f)] else [EntryOf(f)] + Split(more)
  {
    ParseEncoded(f, more);
    assert (Encode(f) + more)[|Encode(f)|..] == more;
  }

  ghost predicate HasClose(frames: seq<Frame>) {
    exists i :: 0 <= i < |frames| && frames[i].opcode == CLOSE
  }

  lemma HasCloseCons(frames: seq<Frame>)
    requires frames != []
    ensures HasClose(frames) <==> frames[0].opcode == CLOSE || HasClose(frames[1..])
  {
    if HasClose(frames[1..]) {
      var i :| 0 <= i < |frames[1..]| && frames[1..][i].opcode == CLOSE;
      assert frames[i + 1] == frames[1..][i];
    }
    if HasClose(frames) {
      var i :| 0 <= i < |frames| && frames[i].opcode == CLOSE;
      assert i > 0 ==> frames[1..][i - 1] == frames[i];
    }
  }

  /** What the splitter should make of frames followed by something it makes
      rest of. */
  ghost function Expected(frames: seq<Frame>, rest: seq<Entry>): seq<Entry> {
    EntriesOf(UpToClose(frames)) + if HasClose(frames) then [] else rest
  }

  lemma ExpectedCons(frames: seq<Frame>, rest: seq<Entry>)
    requires frames != []
    ensures Expected(frames, rest) ==
            if frames[0].opcode == CLOSE then [EntryOf(frames[0])] else [EntryOf(frames[0])] + Expected(frames[1..], rest)
  {
    var f, fs := frames[0], frames[1..];
    HasCloseCons(frames);
    if f.opcode == CLOSE {
      EntriesCons(f, []);
      assert UpToClose(frames) == [f] + [];
    } else {
      EntriesCons(f, UpToClose(fs));
      assert UpToClose(frames) == [f] + UpToClose(fs);
    }
  }

  /** For every list of encodable frames, in any mix of length forms and masking,
      the splitter emits one entry per frame in order, up to the first close, and
      stays aligned on what follows. */
  lemma {:induction false} SplitEncoded(frames: seq<Frame>, tail: seq<Byte>)
    requires forall i :: 0 <= i < |frames| ==> Encodable(frames[i])
    ensures Split(EncodeAll(frames) + tail) == Expected(frames, Split(tail))
  {
    if frames == [] {
      assert EncodeAll(frames) + tail == tail;
      assert Expected(frames, Split(tail)) == Split(tail);
    } else {
      var more := EncodeAll(frames[1..]) + tail;
      assert EncodeAll(frames) + tail == Encode(frames[0]) + more;
      SplitFrame(frames[0], more);
      SplitEncoded(frames[1..], tail);
      ExpectedCons(frames, Split(tail));
    }
  }

  lemma EntriesCons(f: Frame, fs: seq<Frame>)
    ensures EntriesOf([f] + fs) == [EntryOf(f)] + EntriesOf(fs)
  {
    assert ([f] + fs)[1..] == fs;
  }

  // ----- By the bytes on the wire --------------------------------------------

  /** Where the mask key, or the payload if there is none, begins. */
  function KeyAt(b1: Byte): nat { if b1 % 128 < 126 then 2 else if b1 % 128 == 126 then 4 else 10 }

  function Uint16(a: int, b: int): int { 256 * a + b }

  function Uint32(a: int, b: int, c: int, d: int): int { 0x100_0000 * a + 0x1_0000 * b + 0x100 * c + d }

  /** The length: seven bits, or the two or eight bytes after them, the first byte
      counting most. */
  function LengthAt(s: seq<Byte>): int
    requires |s| >= 2 && |s| >= KeyAt(s[1])
  {
    if s[1] % 128 < 126 then s[1] as int % 128
    else if s[1] % 128 == 126 then Uint16(s[2], s[3])
    else 0x1_0000_0000 * Uint32(s[2], s[3], s[4], s[5]) + Uint32(s[6], s[7], s[8], s[9])
  }

  /** Byte b, unmasked by byte key: the bits in which they differ. */
  ghost predicate UnmasksTo(b: Byte, key: Byte, clear: Byte) {
    forall k {:trigger Bit(clear, k)} :: Bit(clear, k) == if Bit(b, k) == Bit(key, k) then 0 else 1
  }

  lemma XorUnmasks(b: Byte, key: Byte)
    ensures UnmasksTo(b, key, Xor(b, key))
  {
    forall k ensures Bit(Xor(b, key), k) == if Bit(b, k) == Bit(key, k) then 0 else 1 { XorBits(b, key, k); }
  }

  ghost predicate PreviewReads(s: seq<Byte>, masked: bool, keyAt: nat, preview: seq<Byte>)
    requires keyAt + (if masked then 4 else 0) + |preview| <= |s|
  {
    forall i :: 0 <= i < |preview| ==>
      if masked then UnmasksTo(s[keyAt + 4 + i], s[keyAt + i % 4], preview[i]) else preview[i] == s[keyAt + i]
  }

  /** Byte s[i], counted in bytes from the most significant. */
  lemma BigEndianBytes(s: seq<Byte>)
    ensures |s| == 2 ==> DecodeBE(s) == Uint16(s[0], s[1])
    ensures |s| == 8 ==>
              DecodeBE(s) == 0x1_0000_0000 * Uint32(s[0], s[1], s[2], s[3]) + Uint32(s[4], s[5], s[6], s[7])
  {
    if |s| == 2 {
      BigEndianStep(s, 0);
      BigEndianStep(s, 1);
    } else if |s| == 8 {
      BigEndianFour(s);
      BigEndianStep(s, 4);
      BigEndianStep(s, 5);
      BigEndianStep(s, 6);
      BigEndianStep(s, 7);
    }
    assert s[..|s|] == s;
  }

  lemma BigEndianFour(s: seq<Byte>)
    requires |s| == 8
    ensures DecodeBE(s[..4]) == Uint32(s[0], s[1], s[2], s[3])
  {
    BigEndianStep(s, 0);
    BigEndianStep(s, 1);
    BigEndianStep(s, 2);
    BigEndianStep(s, 3);
  }

  lemma BigEndianStep(s: seq<Byte>, n: nat)
    requires n < |s|
    ensures DecodeBE(s[..n + 1]) == DecodeBE(s[..n]) * 256 + s[n] as int && DecodeBE(s[..0]) == 0
  {
    assert s[..n + 1][..n] == s[..n];
  }

  lemma LengthByBytes(s: seq<Byte>)
    requires |s| >= 2
    ensures 2 + ExtLen(s[1] % 128) == KeyAt(s[1])
    ensures |s| >= KeyAt(s[1]) ==>
              LengthAt(s) == if ExtLen(s[1] % 128) == 0 then s[1] as int % 128 else DecodeBE(s[2..KeyAt(s[1])])
  {
    if |s| >= KeyAt(s[1]) > 2 { BigEndianBytes(s[2..KeyAt(s[1])]); }
  }

  lemma PreviewByBytes(s: seq<Byte>, keyAt: nat, masked: bool, len: nat)
    requires keyAt + (if masked then 4 else 0) + Min(len, PREVIEW_BYTES) <= |s|
    ensures var p := Preview(s, keyAt, masked, len);
            |p| == (if len < 256 then len else 256) && PreviewReads(s, masked, keyAt, p)
  {
    var p := Preview(s, keyAt, masked, len);
    if masked {
      forall i | 0 <= i < |p| ensures UnmasksTo(s[keyAt + 4 + i], s[keyAt + i % 4], p[i]) {
        XorUnmasks(s[keyAt + 4 + i], s[keyAt + i % 4]);
        assert p[i] == Xor(s[keyAt + 4 + i], s[keyAt + i % 4]);
      }
    }
  }

  /** What a frame is, byte by byte: an entry comes out exactly when the header, the
      key and the first 256 bytes of the payload are there and the length is at most
      8 MiB; a payload cut short, or a close, is the last. */
  lemma FrameByBytes(s: seq<Byte>)
    ensures ParseFrame(s).Got? <==>
              && |s| >= 2 && |s| >= KeyAt(s[1]) && LengthAt(s) <= 8_388_608
              && |s| >= KeyAt(s[1]) + (if s[1] >= 128 then 4 else 0) + (if LengthAt(s) < 256 then LengthAt(s) else 256)
    ensures ParseFrame(s).Got? ==>
              var r, len, keyAt, masked := ParseFrame(s), LengthAt(s), KeyAt(s[1]), s[1] >= 128;
              var end := keyAt + (if masked then 4 else 0) + len;
              && r.entry.opcode == s[0] % 16 && r.entry.fullLen == len
              && |r.entry.preview| == (if len < 256 then len else 256) && PreviewReads(s, masked, keyAt, r.entry.preview)
              && r.used == (if end <= |s| then end else |s|)
              && (r.last <==> end > |s| || r.entry.opcode == 8)
  {
    if |s| >= 2 {
      LengthByBytes(s);
      var keyAt, masked := KeyAt(s[1]), s[1] >= 128;
      if |s| >= keyAt && keyAt + (if masked then 4 else 0) + Min(LengthAt(s), PREVIEW_BYTES) <= |s| {
        PreviewByBytes(s, keyAt, masked, LengthAt(s));
      }
    }
  }
}
