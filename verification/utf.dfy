/** The two-byte-length-prefixed "modified UTF-8" framing of
    `java.io.DataOutput.writeUTF` and `java.io.DataInput.readUTF`.
    A Java string is a sequence of UTF-16 code units; U+0000 and the units
    from U+0080 to U+07FF take two bytes, units from U+0800 up take three,
    the others one. */
module ModifiedUtf8 {
  import opened JavaStrings

  newtype Byte = x: int | 0 <= x < 0x100
  newtype Unit16 = x: int | 0 <= x < 0x1_0000

  /** A java.lang.String, as its UTF-16 code units. */
  type JString = seq<Unit16>

  /** The largest encoded length the two-byte prefix can carry. */
  const MaxEncodedLength: nat := 0xFFFF

  datatype IoError =
    | TooLong         // UTFDataFormatException from writeUTF: "encoded string too long"
    | EndOfStream     // EOFException: fewer bytes than the prefix or the length announces
    | Malformed       // UTFDataFormatException from readUTF: bad or partial character

  datatype Result<T> = Ok(value: T) | Err(error: IoError)

  /** An ASCII string literal (no NUL) as a JString. */
  function AsciiUnits(s: string): (r: JString)
    requires forall i :: 0 <= i < |s| ==> 0x01 <= s[i] as int <= 0x7F
    ensures |r| == |s|
    ensures forall i :: 0 <= i < |r| ==> 0x01 <= r[i] <= 0x7F && r[i] as int == s[i] as int
  {
    seq(|s|, i requires 0 <= i < |s| => s[i] as int as Unit16)
  }

  predicate IsContinuation(b: Byte) {
    0x80 <= b < 0xC0
  }

  function EncodeUnit(c: Unit16): (r: seq<Byte>)
    ensures 1 <= |r| <= 3
  {
    if 0x01 <= c <= 0x7F then [c as int as Byte]
    else if c <= 0x7FF then [(0xC0 + c as int / 0x40) as Byte, (0x80 + c as int % 0x40) as Byte]
    else [(0xE0 + c as int / 0x1000) as Byte,
          (0x80 + (c as int / 0x40) % 0x40) as Byte,
          (0x80 + c as int % 0x40) as Byte]
  }

  function EncodeUnits(s: JString): seq<Byte> {
    if s == [] then [] else EncodeUnit(s[0]) + EncodeUnits(s[1..])
  }

  /** The decoding loop of `readUTF` over exactly the announced bytes. */
  function DecodeUnits(b: seq<Byte>): (r: Option<JString>)
    decreases |b|
  {
    if b == [] then Some([])
    else if b[0] < 0x80 then Prepend(b[0] as int as Unit16, DecodeUnits(b[1..]))
    else if 0xC0 <= b[0] < 0xE0 then
      if |b| < 2 || !IsContinuation(b[1]) then None
      else Prepend(((b[0] as int - 0xC0) * 0x40 + (b[1] as int - 0x80)) as Unit16, DecodeUnits(b[2..]))
    else if 0xE0 <= b[0] < 0xF0 then
      if |b| < 3 || !IsContinuation(b[1]) || !IsContinuation(b[2]) then None
      else Prepend(((b[0] as int - 0xE0) * 0x1000 + (b[1] as int - 0x80) * 0x40 + (b[2] as int - 0x80)) as Unit16,
                   DecodeUnits(b[3..]))
    else None
  }

  function Prepend(c: Unit16, rest: Option<JString>): Option<JString> {
    if rest.Some? then Some([c] + rest.value) else None
  }

  /** What `writeUTF(s)` appends: the big-endian encoded length, then the
      encoding; or the failure it raises, having written nothing. */
  function WriteUtf(s: JString): (r: Result<seq<Byte>>)
    ensures r.Err? <==> |EncodeUnits(s)| > MaxEncodedLength
    ensures r.Err? ==> r.error == TooLong
    ensures r.Ok? ==> |r.value| == 2 + |EncodeUnits(s)| && r.value[2..] == EncodeUnits(s)
  {
    var body := EncodeUnits(s);
    if |body| > MaxEncodedLength then Err(TooLong)
    else Ok([(|body| / 0x100) as Byte, (|body| % 0x100) as Byte] + body)
  }

  /** What `readUTF` returns when the stream is positioned at `pos` of
      `data`: the string and the new position, or the failure it raises. */
  function ReadUtf(data: seq<Byte>, pos: nat): (r: Result<(JString, nat)>)
    ensures r.Ok? ==> pos + 2 <= r.value.1 <= |data|
  {
    if |data| < pos + 2 then Err(EndOfStream)
    else
      var len := data[pos] as int * 0x100 + data[pos + 1] as int;
      if |data| < pos + 2 + len then Err(EndOfStream)
      else match DecodeUnits(data[pos + 2..pos + 2 + len])
        case None => Err(Malformed)
        case Some(s) => Ok((s, pos + 2 + len))
  }

  lemma DecodeEncodedUnit(c: Unit16, rest: seq<Byte>)
    ensures DecodeUnits(EncodeUnit(c) + rest) == Prepend(c, DecodeUnits(rest))
  {
    var e := EncodeUnit(c);
    var b := e + rest;
    if 0x01 <= c <= 0x7F {
      assert b[1..] == rest;
    } else if c <= 0x7FF {
      assert b[2..] == rest;
      if c == 0 {
        assert b[0] == 0xC0 && b[1] == 0x80;
      }
      assert (b[0] as int - 0xC0) * 0x40 + (b[1] as int - 0x80) == c as int;
    } else {
      assert b[3..] == rest;
      assert (b[0] as int - 0xE0) * 0x1000 + (b[1] as int - 0x80) * 0x40 + (b[2] as int - 0x80) == c as int;
    }
  }

  /** Decoding undoes encoding, unit by unit. */
  lemma {:induction false} DecodeEncode(s: JString)
    ensures DecodeUnits(EncodeUnits(s)) == Some(s)
  {
    if s != [] {
      DecodeEncode(s[1..]);
      DecodeEncodedUnit(s[0], EncodeUnits(s[1..]));
      assert [s[0]] + s[1..] == s;
    }
  }

  lemma {:induction false} EncodeLength(s: JString)
    ensures |s| <= |EncodeUnits(s)| <= 3 * |s|
  {
    if s != [] {
      EncodeLength(s[1..]);
    }
  }

  lemma {:induction false} EncodeAscii(s: JString)
    requires forall i :: 0 <= i < |s| ==> 0x01 <= s[i] <= 0x7F
    ensures |EncodeUnits(s)| == |s|
  {
    if s != [] {
      EncodeAscii(s[1..]);
    }
  }

  /** `readUTF` at the start of a frame that `writeUTF` produced returns the
      written string and stops right after the frame. */
  lemma ReadWritten(s: JString, before: seq<Byte>, after: seq<Byte>)
    requires WriteUtf(s).Ok?
    ensures ReadUtf(before + WriteUtf(s).value + after, |before|)
         == Ok((s, |before| + |WriteUtf(s).value|))
  {
    var frame := WriteUtf(s).value;
    FrameShape(s);
    var data := before + frame + after;
    var pos := |before|;
    assert data[pos] == frame[0] && data[pos + 1] == frame[1];
    var len := |frame| - 2;
    assert data[pos + 2..pos + 2 + len] == frame[2..];
    DecodeEncode(s);
  }

  /** A frame is its big-endian length followed by that many bytes. */
  lemma FrameShape(s: JString)
    requires WriteUtf(s).Ok?
    ensures var frame := WriteUtf(s).value;
            frame[0] as int * 0x100 + frame[1] as int == |frame| - 2 && frame[2..] == EncodeUnits(s)
  {
  }

  /** `readUTF` on a frame cut short fails. */
  lemma ReadTruncated(s: JString, before: seq<Byte>, keep: nat)
    requires WriteUtf(s).Ok?
    requires keep < |WriteUtf(s).value|
    ensures ReadUtf(before + WriteUtf(s).value[..keep], |before|).Err?
  {
    var frame := WriteUtf(s).value;
    FrameShape(s);
    var data := before + frame[..keep];
    if keep >= 2 {
      assert data[|before|] == frame[0] && data[|before| + 1] == frame[1];
    }
  }
}
