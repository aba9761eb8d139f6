/** `extractSha256FromURL`: recovering a blob's SHA-256 from a Blossom URL
    of the form `scheme://host/<hash>` or `scheme://host/<hash>.<ext>`. */
module BlobHash {
  import opened Text
  import opened Hex

  /** Hex digits in a SHA-256 digest. */
  const HashLength: nat := 64

  /** What a successful extraction looks like: 64 lower-case hex digits. */
  predicate IsSha256Hex(s: string)
  {
    |s| == HashLength && IsLowerHex(s)
  }

  predicate AllHexDigits(s: string)
  {
    forall i :: 0 <= i < |s| ==> IsHexDigit(s[i])
  }

  /** The segment with everything from its last `.` onward removed. */
  function StripExtension(seg: string): (r: string)
    ensures r <= seg
    ensures '.' !in seg ==> r == seg
    ensures '.' in seg ==> |r| < |seg| && seg[|r|] == '.' && '.' !in seg[|r| + 1..]
  {
    var dot := LastIndexOf(seg, '.');
    if dot != -1 then seg[..dot] else seg
  }

  /** The hash carried by the last path segment, lower-cased, or "" when
      the segment without its extension is not 64 hex digits. */
  function HashFromSegment(seg: string): (r: string)
    ensures r == "" || IsSha256Hex(r)
    ensures r != "" ==> r == ToLowerAscii(StripExtension(seg))
    ensures |StripExtension(seg)| != HashLength ==> r == ""
  {
    var h := StripExtension(seg);
    if |h| == HashLength && AllHexDigits(h) then ToLowerAscii(h) else ""
  }

  /** `extractSha256FromURL`: split on `/`, require at least four parts,
      and read the hash from the last one. */
  function ExtractSha256FromUrl(url: string): (r: string)
    ensures r == "" || IsSha256Hex(r)
    ensures multiset(url)['/'] < 3 ==> r == ""
  {
    var parts := Split(url, '/');
    SplitCount(url, '/');
    if |parts| < 4 then "" else HashFromSegment(parts[|parts| - 1])
  }

  /** Only the last segment matters, once the URL has scheme, host and path
      separators (at least two `/` before it). */
  lemma ExtractFromSegment(prefix: string, seg: string)
    requires '/' !in seg
    ensures ExtractSha256FromUrl(prefix + "/" + seg)
         == if multiset(prefix)['/'] >= 2 then HashFromSegment(seg) else ""
  {
    SplitConcat(prefix, seg, '/');
    SplitCount(prefix, '/');
    assert IndexOf(seg, '/') == -1;
  }

  /** A reference reading of the extraction that does not split at all:
      count the slashes and inspect the text after the last one. */
  lemma ExtractReadsAfterLastSlash(url: string)
    ensures ExtractSha256FromUrl(url)
         == if multiset(url)['/'] >= 3
            then HashFromSegment(url[LastIndexOf(url, '/') + 1..])
            else ""
  {
    var k := LastIndexOf(url, '/');
    if k != -1 {
      AtLastSlash(url, k);
      ExtractFromSegment(url[..k], url[k + 1..]);
    }
  }

  /** Cutting a URL at its last `/`: the tail holds no `/`, and every
      other `/` lies before the cut. */
  lemma AtLastSlash(url: string, k: int)
    requires k == LastIndexOf(url, '/') && k != -1
    ensures url == url[..k] + "/" + url[k + 1..]
    ensures '/' !in url[k + 1..]
    ensures multiset(url)['/'] == multiset(url[..k])['/'] + 1
  {
    var tail := url[k + 1..];
    assert url == url[..k] + "/" + tail;
    assert forall j :: 0 <= j < |tail| ==> tail[j] == url[k + 1 + j];
    assert multiset(url) == multiset(url[..k]) + multiset("/") + multiset(tail);
  }

  /** A 64-character candidate with any non-hex character yields "". */
  lemma NonHexRejected(prefix: string, seg: string, i: int)
    requires '/' !in seg
    requires var h := StripExtension(seg);
             |h| == HashLength && 0 <= i < |h| && !IsHexDigit(h[i])
    ensures ExtractSha256FromUrl(prefix + "/" + seg) == ""
  {
    assert HashFromSegment(seg) == "";
    ExtractFromSegment(prefix, seg);
  }

  /** A candidate of any length other than 64 yields "". */
  lemma WrongLengthRejected(prefix: string, seg: string)
    requires '/' !in seg
    requires |StripExtension(seg)| != HashLength
    ensures ExtractSha256FromUrl(prefix + "/" + seg) == ""
  {
    ExtractFromSegment(prefix, seg);
  }

  /** A URL whose last segment is not a hash at all yields "". */
  lemma NotAHashExample()
    ensures ExtractSha256FromUrl("https://x/not-a-hash") == ""
  {
    assert "https://x/not-a-hash" == "https://x" + "/" + "not-a-hash";
    WrongLengthRejected("https://x", "not-a-hash");
  }

  /** The extension after the last `.` is what gets dropped. */
  lemma StripDottedExtension(h: string, ext: string)
    requires '.' !in ext
    ensures StripExtension(h + "." + ext) == h
  {
    var seg := h + "." + ext;
    assert seg[|h|] == '.' && seg[|h| + 1..] == ext;
    LastIndexOfUnique(seg, '.', |h|);
    assert seg[..|h|] == h;
  }

  /** Dropping the extension: `.../<h>.<ext>` and `.../<h>` extract the same. */
  lemma ExtensionIgnored(prefix: string, h: string, ext: string)
    requires '/' !in h && '.' !in h
    requires '/' !in ext && '.' !in ext
    ensures ExtractSha256FromUrl(prefix + "/" + h + "." + ext)
         == ExtractSha256FromUrl(prefix + "/" + h)
  {
    var seg := h + "." + ext;
    assert prefix + "/" + h + "." + ext == prefix + "/" + seg;
    StripDottedExtension(h, ext);
    assert HashFromSegment(seg) == HashFromSegment(h);
    ExtractFromSegment(prefix, seg);
    ExtractFromSegment(prefix, h);
  }

  /** Lower-casing commutes with stripping the extension. */
  lemma StripExtensionLower(seg: string)
    ensures StripExtension(ToLowerAscii(seg)) == ToLowerAscii(StripExtension(seg))
  {
    var low := ToLowerAscii(seg);
    var k := LastIndexOf(seg, '.');
    if k != -1 {
      LastIndexOfUnique(low, '.', k);
    }
  }

  /** The segment's case is irrelevant to the extracted hash. */
  lemma HashFromSegmentLower(seg: string)
    ensures HashFromSegment(ToLowerAscii(seg)) == HashFromSegment(seg)
  {
    StripExtensionLower(seg);
    var h := StripExtension(seg);
    LowerForgetsCase(h);
    assert AllHexDigits(ToLowerAscii(h)) <==> AllHexDigits(h);
  }

  /** Two spellings of a last segment that differ only in letter case
      extract the identical lower-case hash. */
  lemma CaseInsensitive(prefix: string, a: string, b: string)
    requires '/' !in a && '/' !in b
    requires ToLowerAscii(a) == ToLowerAscii(b)
    ensures ExtractSha256FromUrl(prefix + "/" + a) == ExtractSha256FromUrl(prefix + "/" + b)
  {
    HashFromSegmentLower(a);
    HashFromSegmentLower(b);
    ExtractFromSegment(prefix, a);
    ExtractFromSegment(prefix, b);
  }

  /** A well-formed Blossom URL yields its hash, whatever the extension and
      whatever case the hash was written in. */
  lemma RecoversHash(prefix: string, h: string, ext: string)
    requires multiset(prefix)['/'] >= 2
    requires IsSha256Hex(h)
    requires '/' !in ext && '.' !in ext
    ensures ExtractSha256FromUrl(prefix + "/" + h) == h
    ensures ExtractSha256FromUrl(prefix + "/" + h + "." + ext) == h
    ensures ExtractSha256FromUrl(prefix + "/" + ToUpperAscii(h)) == h
  {
    ExtractFromSegment(prefix, h);
    assert StripExtension(h) == h;
    assert AllHexDigits(h);
    assert ToLowerAscii(h) == h;
    ExtensionIgnored(prefix, h, ext);
    LowerForgetsCase(h);
    CaseInsensitive(prefix, h, ToUpperAscii(h));
  }
}
