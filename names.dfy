/**
 * The names a storage event carries: `percent_decode_str(..).decode_utf8()` applied
 * to the object key and bucket name (percent-decoding as section 2.1 of RFC 3986
 * describes it, then UTF-8 decoding), and `Path::file_name` on the decoded key.
 */
module Names {
  import opened Wrappers
  import opened Text
  import opened Utf8

  /** The byte of `%`. */
  const Percent: byte := 0x25

  predicate IsHexDigit(b: byte)
  {
    (0x30 <= b <= 0x39) || (0x41 <= b <= 0x46) || (0x61 <= b <= 0x66)
  }

  /** The value of a hexadecimal digit, either case. */
  function HexValue(b: byte): (v: nat)
    requires IsHexDigit(b)
    ensures v < 16
  {
    if b <= 0x39 then b - 0x30 else if b <= 0x46 then b - 0x41 + 10 else b - 0x61 + 10
  }

  /** The upper-case hexadecimal digit of a value below 16. */
  function HexDigit(v: nat): (b: byte)
    requires v < 16
    ensures IsHexDigit(b) && HexValue(b) == v
  {
    if v < 10 then 0x30 + v else 0x41 + v - 10
  }

  /**
   * Replaces each `%` followed by two hexadecimal digits by the byte they spell;
   * a `%` without two hexadecimal digits after it is kept as it is.
   */
  function PercentDecode(bs: seq<byte>): (r: seq<byte>)
    ensures |r| <= |bs|
    decreases |bs|
  {
    if |bs| == 0 then []
    else if bs[0] == Percent && |bs| >= 3 && IsHexDigit(bs[1]) && IsHexDigit(bs[2]) then
      [HexValue(bs[1]) * 16 + HexValue(bs[2])] + PercentDecode(bs[3..])
    else [bs[0]] + PercentDecode(bs[1..])
  }

  /** Every byte written as `%` and two upper-case hexadecimal digits: the escape a sender may apply to any byte. */
  function EscapeAll(bs: seq<byte>): (r: seq<byte>)
    ensures |r| == 3 * |bs|
    decreases |bs|
  {
    if |bs| == 0 then [] else [Percent, HexDigit(bs[0] / 16), HexDigit(bs[0] % 16)] + EscapeAll(bs[1..])
  }

  /** Bytes without `%` are left alone. */
  lemma {:induction false} PercentDecodeUnescaped(bs: seq<byte>)
    requires Percent !in bs
    ensures PercentDecode(bs) == bs
    decreases |bs|
  {
    if |bs| > 0 {
      assert bs[0] != Percent;
      PercentDecodeUnescaped(bs[1..]);
    }
  }

  /** Decoding undoes escaping every byte. */
  lemma {:induction false} PercentDecodeEscapeAll(bs: seq<byte>)
    ensures PercentDecode(EscapeAll(bs)) == bs
    decreases |bs|
  {
    if |bs| > 0 {
      var e := EscapeAll(bs);
      assert e[3..] == EscapeAll(bs[1..]);
      PercentDecodeEscapeAll(bs[1..]);
      assert [bs[0]] + bs[1..] == bs;
    }
  }

  /** A stray `%`, as in `100%`, survives decoding, while `%2F` becomes `/`. */
  lemma PercentDecodeExamples()
    ensures PercentDecode([0x31, 0x30, 0x30, 0x25]) == [0x31, 0x30, 0x30, 0x25]
    ensures PercentDecode([0x61, 0x25, 0x32, 0x46, 0x62]) == [0x61, 0x2F, 0x62]
  {
    var a: seq<byte> := [0x31, 0x30, 0x30, 0x25];
    assert a[1..][1..][1..] == [0x25];
    var b: seq<byte> := [0x61, 0x25, 0x32, 0x46, 0x62];
    assert b[1..] == [0x25, 0x32, 0x46, 0x62];
    assert b[1..][3..] == [0x62];
  }

  /** What `percent_decode_str(raw).decode_utf8()` gives: `None` where `unwrap` would panic. */
  function DecodeName(raw: string): Option<string>
  {
    Decode(PercentDecode(Encode(raw)))
  }

  lemma {:induction false} EncodeWithoutPercent(s: string)
    requires '%' !in s
    ensures Percent !in Encode(s)
    decreases |s|
  {
    if |s| > 0 {
      assert s[0] != '%' && '%' !in s[1..];
      EncodeWithoutPercent(s[1..]);
    }
  }

  /** A name without `%` decodes to itself. */
  lemma DecodeNamePlain(raw: string)
    requires '%' !in raw
    ensures DecodeName(raw) == Some(raw)
  {
    EncodeWithoutPercent(raw);
    PercentDecodeUnescaped(Encode(raw));
    DecodeEncode(raw);
  }

  /** A name whose UTF-8 bytes were all escaped decodes to the original name. */
  lemma DecodeNameEscaped(raw: string, name: string)
    requires Encode(raw) == EscapeAll(Encode(name))
    ensures DecodeName(raw) == Some(name)
  {
    PercentDecodeEscapeAll(Encode(name));
    DecodeEncode(name);
  }

  // ----- Path::file_name -----

  /** The normal components of a path split at `/`: empty and `.` segments drop out. */
  function Components(segments: seq<string>): (r: seq<string>)
    ensures |r| <= |segments|
    decreases |segments|
  {
    if |segments| == 0 then []
    else
      var last := segments[|segments| - 1];
      Components(segments[..|segments| - 1]) + (if last == "" || last == "." then [] else [last])
  }

  /** `Path::file_name`: the last component, unless there is none or it is `..`. */
  function FileName(path: string): (r: Option<string>)
    ensures r.Some? ==> r.value != "" && r.value != "." && r.value != ".." && '/' !in r.value
  {
    var cs := Components(Split(path, '/'));
    assert forall k :: 0 <= k < |cs| ==> '/' !in cs[k] && cs[k] != "" && cs[k] != "." by {
      ComponentsOfSplit(path);
    }
    if |cs| == 0 || cs[|cs| - 1] == ".." then None else Some(cs[|cs| - 1])
  }

  lemma {:induction false} SplitPiecesLackSep(s: string, sep: char)
    ensures forall k :: 0 <= k < |Split(s, sep)| ==> sep !in Split(s, sep)[k]
    decreases |s|
  {
    if |s| > 0 {
      SplitPiecesLackSep(s[1..], sep);
    }
  }

  lemma {:induction false} ComponentsKeep(segments: seq<string>, c: char)
    requires forall k :: 0 <= k < |segments| ==> c !in segments[k]
    ensures forall k :: 0 <= k < |Components(segments)| ==> c !in Components(segments)[k]
    ensures forall k :: 0 <= k < |Components(segments)| ==> Components(segments)[k] != "" && Components(segments)[k] != "."
    decreases |segments|
  {
    if |segments| > 0 {
      ComponentsKeep(segments[..|segments| - 1], c);
    }
  }

  lemma ComponentsOfSplit(path: string)
    ensures forall k :: 0 <= k < |Components(Split(path, '/'))| ==>
      var c := Components(Split(path, '/'))[k]; '/' !in c && c != "" && c != "."
  {
    SplitPiecesLackSep(path, '/');
    ComponentsKeep(Split(path, '/'), '/');
  }

  /** A segment that is a file name by itself. */
  predicate PlainSegment(s: string)
  {
    s != "" && s != "." && s != ".." && '/' !in s
  }

  /** The file name of `dir/name` is `name`, whatever the directory part is. */
  lemma FileNameAfterDirectory(dir: string, name: string)
    requires PlainSegment(name)
    ensures FileName(dir + "/" + name) == Some(name)
  {
    SplitSnoc(dir, name, '/');
    var segs := Split(dir, '/') + [name];
    assert segs[..|segs| - 1] == Split(dir, '/');
  }

  /** A path ending in `..` has no file name. */
  lemma FileNameOfParent(dir: string)
    ensures FileName(dir + "/..") == None
  {
    assert dir + "/.." == dir + ['/'] + "..";
    SplitSnoc(dir, "..", '/');
    var segs := Split(dir, '/') + [".."];
    assert segs[..|segs| - 1] == Split(dir, '/');
  }

  /** A plain segment on its own is its own file name. */
  lemma FileNameOfSegment(name: string)
    requires PlainSegment(name)
    ensures FileName(name) == Some(name)
  {
    SplitWithoutSep(name, '/');
    assert [name][..0] == [];
  }
}
