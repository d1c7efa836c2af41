/** The minimal Java serialization stream that PureJavaReflectionProvider
    synthesises to materialise a Serializable class without running any of its
    constructors: a TC_OBJECT whose new class descriptor names the class, gives
    its serial version UID, declares no fields and has no superclass. The
    grammar is that of section 6.4.1 of the Java Object Serialization
    Specification; the constants are those of its section 6.4.2. */
module SerialStream {
  import opened Wrappers
  import opened Bytes

  const STREAM_MAGIC: int := 0xACED
  const STREAM_VERSION: int := 5
  const TC_NULL: int := 0x70
  const TC_CLASSDESC: int := 0x72
  const TC_OBJECT: int := 0x73
  const TC_ENDBLOCKDATA: int := 0x78
  const SC_SERIALIZABLE: int := 0x02

  /** writeUTF refuses (UTFDataFormatException, an IOException) a string whose
      modified UTF-8 form does not fit in its 16-bit length prefix. */
  datatype WriteFailure = UtfDataFormat(utfLength: nat)

  const MAX_UTF_LENGTH: nat := 65535

  /** What writeUTF emits: the 2-byte length, then the modified UTF-8 bytes. */
  function UtfRecord(s: string): (r: Result<seq<byte>, WriteFailure>)
    ensures r.Success? <==> |Utf(s)| <= MAX_UTF_LENGTH
    ensures r.Success? ==> r.value == BigEndian(|Utf(s)|, 2) + Utf(s)
    ensures r.Failure? ==> r.error == UtfDataFormat(|Utf(s)|)
  {
    var utf := Utf(s);
    if |utf| > MAX_UTF_LENGTH then Failure(UtfDataFormat(|utf|)) else Success(BigEndian(|utf|, 2) + utf)
  }

  /** magic, version, TC_OBJECT, TC_CLASSDESC */
  function Header(): seq<byte>
  {
    BigEndian(STREAM_MAGIC, 2) + BigEndian(STREAM_VERSION, 2) + BigEndian(TC_OBJECT, 1) + BigEndian(TC_CLASSDESC, 1)
  }

  /** classDescFlags, field count, TC_ENDBLOCKDATA (no class annotation), TC_NULL (no superclass) */
  function Trailer(): seq<byte>
  {
    BigEndian(SC_SERIALIZABLE, 1) + BigEndian(0, 2) + BigEndian(TC_ENDBLOCKDATA, 1) + BigEndian(TC_NULL, 1)
  }

  lemma FramingBytes()
    ensures Header() == [0xAC, 0xED, 0x00, 0x05, 0x73, 0x72]
    ensures Trailer() == [0x02, 0x00, 0x00, 0x78, 0x70]
  {
    assert BigEndian(STREAM_MAGIC, 2) == [0xAC, 0xED] by {
      assert BigEndian(0xAC, 1) == [0xAC];
    }
    assert BigEndian(STREAM_VERSION, 2) == [0x00, 0x05] by {
      assert BigEndian(0, 1) == [0];
    }
    assert BigEndian(0, 2) == [0x00, 0x00] by {
      assert BigEndian(0, 1) == [0];
    }
  }

  /** The whole payload for a class name and serial version UID. */
  function Payload(className: string, suid: int): (r: Result<seq<byte>, WriteFailure>)
    ensures r.Success? <==> |Utf(className)| <= MAX_UTF_LENGTH
    ensures r.Failure? ==> r.error == UtfDataFormat(|Utf(className)|)
    ensures r.Success? ==> |r.value| == 21 + |Utf(className)|
  {
    match UtfRecord(className)
    case Failure(e) => Failure(e)
    case Success(name) => Success(Header() + name + BigEndian(suid, 8) + Trailer())
  }

  /** Reads a payload of this shape back: the class name its descriptor
      carries and the serial version UID, as ObjectInputStream would take them
      from the stream; None for anything else. */
  function ParsePayload(bs: seq<byte>): (r: Option<(string, int)>)
    ensures r.Some? ==>
      && 21 <= |bs|
      && bs[..6] == Header()
      && Unsigned(bs[6..8]) == |bs| - 21
      && bs[|bs| - 5..] == Trailer()
  {
    if |bs| < 8 || bs[..6] != Header() then None
    else
      var len := Unsigned(bs[6..8]);
      if |bs| != 8 + len + 8 + 5 || bs[16 + len..] != Trailer() then None
      else
        match FromModifiedUtf8(bs[8..8 + len])
        case None => None
        case Some(units) =>
          match FromUtf16(units)
          case None => None
          case Some(name) => Some((name, SignedLong(bs[8 + len..16 + len])))
  }

  /** Where each part of a five-part concatenation lies. */
  lemma Slices(a: seq<byte>, b: seq<byte>, c: seq<byte>, d: seq<byte>, e: seq<byte>)
    ensures var p, i, j, k, l := a + b + c + d + e, |a|, |a| + |b|, |a| + |b| + |c|, |a| + |b| + |c| + |d|;
      p[..i] == a && p[i..j] == b && p[j..k] == c && p[k..l] == d && p[l..] == e
  {
  }

  /** The payload exists exactly when the name's modified UTF-8 form fits in
      65535 bytes; it is then 21 bytes plus that form, laid out as magic,
      version, TC_OBJECT, TC_CLASSDESC, the length-prefixed name, the eight
      bytes of the UID, flags SC_SERIALIZABLE, a zero field count,
      TC_ENDBLOCKDATA and TC_NULL. */
  lemma PayloadLayout(className: string, suid: int)
    ensures Payload(className, suid).Success? <==> |Utf(className)| <= MAX_UTF_LENGTH
    ensures Payload(className, suid).Failure? ==> Payload(className, suid).error == UtfDataFormat(|Utf(className)|)
    ensures Payload(className, suid).Success? ==>
      var p, n := Payload(className, suid).value, |Utf(className)|;
      && |p| == 21 + n
      && p[..6] == [0xAC, 0xED, 0x00, 0x05, 0x73, 0x72]
      && Unsigned(p[6..8]) == n
      && p[8..8 + n] == Utf(className)
      && p[8 + n..16 + n] == BigEndian(suid, 8)
      && p[16 + n..] == [0x02, 0x00, 0x00, 0x78, 0x70]
  {
    FramingBytes();
    if Payload(className, suid).Success? {
      var p, n := Payload(className, suid).value, |Utf(className)|;
      var h, len, u, id, t := Header(), BigEndian(n, 2), Utf(className), BigEndian(suid, 8), Trailer();
      assert p == h + len + u + id + t;
      Slices(h, len, u, id, t);
      ShortRoundTrip(n);
    }
  }

  /** A name of plain ASCII characters that fits gives a payload of 21 bytes
      plus one byte per character. */
  lemma AsciiPayloadLength(className: string, suid: int)
    requires IsAscii(className) && |className| <= MAX_UTF_LENGTH
    ensures Payload(className, suid).Success? && |Payload(className, suid).value| == 21 + |className|
  {
    AsciiUtfLength(className);
  }

  /** The payload is read back as the class it was written for, with its UID:
      the descriptor names exactly that class. */
  lemma PayloadRoundTrip(className: string, suid: int)
    requires -0x8000_0000_0000_0000 <= suid < 0x8000_0000_0000_0000
    requires Payload(className, suid).Success?
    ensures ParsePayload(Payload(className, suid).value) == Some((className, suid))
  {
    var p, n := Payload(className, suid).value, |Utf(className)|;
    PayloadLayout(className, suid);
    FramingBytes();
    assert p[8 + n..16 + n] == BigEndian(suid, 8);
    LongRoundTrip(suid);
    UtfRoundTrip(className);
  }

  /** java.io.DataOutputStream over a ByteArrayOutputStream: every write
      appends its encoding to the bytes written so far. */
  class DataOutputStream {
    var written: seq<byte>

    constructor ()
      ensures written == []
    {
      written := [];
    }

    method WriteByte(v: int)
      modifies this
      ensures written == old(written) + BigEndian(v, 1)
    {
      written := written + BigEndian(v, 1);
    }

    method WriteShort(v: int)
      modifies this
      ensures written == old(written) + BigEndian(v, 2)
    {
      written := written + BigEndian(v, 2);
    }

    method WriteLong(v: int)
      modifies this
      ensures written == old(written) + BigEndian(v, 8)
    {
      written := written + BigEndian(v, 8);
    }

    /** Either appends the whole record or throws before writing anything. */
    method WriteUtf(s: string) returns (failure: Option<WriteFailure>)
      modifies this
      ensures UtfRecord(s).Success? ==> failure == None && written == old(written) + UtfRecord(s).value
      ensures UtfRecord(s).Failure? ==> failure == Some(UtfRecord(s).error) && written == old(written)
    {
      var utf := Utf(s);
      if |utf| > MAX_UTF_LENGTH {
        return Some(UtfDataFormat(|utf|));
      }
      written := written + BigEndian(|utf|, 2) + utf;
      failure := None;
    }
  }
}
