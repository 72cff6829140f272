/**
 * Where a bookmark is stored, as the browser client computes it (`computeSha1` and
 * `url2filename` in pagemarks/js/globals.js): the normalised URL is hashed with SHA-1,
 * the digest is unpacked from CryptoJS's big-endian 32-bit words into bytes, encoded
 * with the lower-case base-32 alphabet of section 6 of RFC 4648, and cut to 22
 * characters; the folder is the last digest byte modulo 32, written with two digits.
 *
 * SHA-1 itself is a parameter: `sha1` is any function from text to a CryptoJS
 * digest of five words and 20 significant bytes.
 */
module Addressing {

  import opened Text
  import opened JsValues
  import UrlNormalize
  import Base32

  /** A CryptoJS `WordArray`: big-endian 32-bit words and the number of bytes that count. */
  datatype WordArray = WordArray(words: seq<bv32>, sigBytes: nat)

  /** What CryptoJS's SHA-1 returns: five words, all 20 bytes significant. */
  type Sha1Words = h: WordArray | |h.words| == 5 && h.sigBytes == 20
    witness WordArray([0, 0, 0, 0, 0], 20)

  /** The number of base-32 characters of a file name (`BOOKMARK_ID_LEN_HASHPART`). */
  const HashPartLength: nat := 22

  /** What `url2filename` returns for a value that is not a string. */
  const InvalidFilename: string := "00/_______invalid________.json"

  // ---------------------------------------------------------------------------
  // computeSha1: unpacking the digest words into bytes
  // ---------------------------------------------------------------------------

  /**
   * Byte `k` of a word, most significant first: `w >>> (24 - 8k) & 0xff`, written
   * with the four constant shift distances.
   */
  function ByteOfWord(w: bv32, k: nat): bv8
    requires k < 4
  {
    match k
    case 0 => ((w >> 24) & 0xff) as bv8
    case 1 => ((w >> 16) & 0xff) as bv8
    case 2 => ((w >> 8) & 0xff) as bv8
    case 3 => (w & 0xff) as bv8
  }

  /** Byte `i` as `computeSha1` reads it; a word past the end reads as `undefined`, which shifts to 0. */
  function UnpackedByte(h: WordArray, i: nat): bv8 {
    if i / 4 < |h.words| then ByteOfWord(h.words[i / 4], i % 4) else 0
  }

  /** The `Uint8Array` of `sigBytes` bytes that `computeSha1` fills. */
  function Unpacked(h: WordArray): (r: seq<bv8>)
    ensures |r| == h.sigBytes
  {
    seq(h.sigBytes, i requires 0 <= i < h.sigBytes => UnpackedByte(h, i))
  }

  /** Byte `i` of `d`, or a zero fill byte past its end. */
  function FillByte(d: seq<bv8>, i: nat): bv8 {
    if i < |d| then d[i] else 0
  }

  /** Four bytes as one big-endian word. */
  function Word(b0: bv8, b1: bv8, b2: bv8, b3: bv8): bv32 {
    ((b0 as bv32) << 24) | ((b1 as bv32) << 16) | ((b2 as bv32) << 8) | (b3 as bv32)
  }

  /**
   * The inverse of the unpacking: bytes packed into big-endian words, the last one
   * filled with zeros, as CryptoJS holds a digest.
   */
  function Pack(d: seq<bv8>): (h: WordArray)
    ensures h.sigBytes == |d| && |h.words| == (|d| + 3) / 4
  {
    WordArray(seq((|d| + 3) / 4, j requires 0 <= j < (|d| + 3) / 4 =>
      Word(FillByte(d, 4 * j), FillByte(d, 4 * j + 1), FillByte(d, 4 * j + 2), FillByte(d, 4 * j + 3))), |d|)
  }

  lemma ByteOfPackedWord(b0: bv8, b1: bv8, b2: bv8, b3: bv8)
    ensures ByteOfWord(Word(b0, b1, b2, b3), 0) == b0
    ensures ByteOfWord(Word(b0, b1, b2, b3), 1) == b1
    ensures ByteOfWord(Word(b0, b1, b2, b3), 2) == b2
    ensures ByteOfWord(Word(b0, b1, b2, b3), 3) == b3
  {
  }

  lemma WordOfBytes(w: bv32)
    ensures Word(ByteOfWord(w, 0), ByteOfWord(w, 1), ByteOfWord(w, 2), ByteOfWord(w, 3)) == w
  {
  }

  /** The unpacking recovers every packed byte sequence: the big-endian order is undone exactly. */
  lemma UnpackPack(d: seq<bv8>)
    ensures Unpacked(Pack(d)) == d
  {
    var h := Pack(d);
    forall i | 0 <= i < |d|
      ensures Unpacked(h)[i] == d[i]
    {
      var j := i / 4;
      ByteOfPackedWord(FillByte(d, 4 * j), FillByte(d, 4 * j + 1), FillByte(d, 4 * j + 2), FillByte(d, 4 * j + 3));
      assert i == 4 * j + i % 4;
    }
  }

  lemma UnpackedAt(h: WordArray, j: nat, k: nat)
    requires j < |h.words| && k < 4 && 4 * j + k < h.sigBytes
    ensures FillByte(Unpacked(h), 4 * j + k) == ByteOfWord(h.words[j], k)
  {
    assert (4 * j + k) / 4 == j && (4 * j + k) % 4 == k;
  }

  /** Packing the unpacked bytes of a word array whose every byte counts gives the words back. */
  lemma PackUnpack(h: WordArray)
    requires h.sigBytes == 4 * |h.words|
    ensures Pack(Unpacked(h)) == h
  {
    var d := Unpacked(h);
    var p := Pack(d);
    forall j | 0 <= j < |h.words|
      ensures p.words[j] == h.words[j]
    {
      UnpackedAt(h, j, 0);
      UnpackedAt(h, j, 1);
      UnpackedAt(h, j, 2);
      UnpackedAt(h, j, 3);
      WordOfBytes(h.words[j]);
    }
  }

  /** `computeSha1` (globals.js lines 260-268) after the hash: the byte loop over `sigBytes`. */
  method ComputeSha1(h: WordArray) returns (digest: seq<bv8>)
    ensures digest == Unpacked(h)
  {
    var data := new bv8[h.sigBytes];
    var i := 0;
    while i < h.sigBytes
      invariant 0 <= i <= h.sigBytes
      invariant forall j :: 0 <= j < i ==> data[j] == UnpackedByte(h, j)
    {
      var w: bv32 := if i / 4 < |h.words| then h.words[i / 4] else 0;
      data[i] := ByteOfWord(w, i % 4);
      i := i + 1;
    }
    digest := data[..];
  }

  // ---------------------------------------------------------------------------
  // url2filename
  // ---------------------------------------------------------------------------

  /** The folder prefix: `foldernum + '/'`, with a `0` in front when `foldernum < 10`. */
  function FolderPrefix(foldernum: nat): string {
    var folderstr := Decimal(foldernum) + "/";
    if foldernum < 10 then "0" + folderstr else folderstr
  }

  /** The file name of a digest (globals.js lines 278-284). */
  function DigestFilename(digest: seq<bv8>): string
    requires |digest| == 20
  {
    var hashcode := Lower(Base32.Reference(digest))[..HashPartLength];
    var foldernum := digest[|digest| - 1] as nat % 32;
    FolderPrefix(foldernum) + hashcode + ".json"
  }

  /** `url2filename(url)` with SHA-1 given as `sha1`. */
  function Url2FilenameOf(url: JsValue, sha1: string -> Sha1Words): string {
    if !url.Str? then InvalidFilename
    else DigestFilename(Unpacked(sha1(UrlNormalize.NormalizeUrl(url.s))))
  }

  /**
   * `url2filename` with the URL pattern anchored at the start of the text, as
   * Python's `re.match` anchors it: the file name both sides agree on.
   */
  function Url2FilenameAnchoredOf(url: JsValue, sha1: string -> Sha1Words): string {
    if !url.Str? then InvalidFilename
    else DigestFilename(Unpacked(sha1(UrlNormalize.NormalizeUrlAnchored(url.s))))
  }

  /** `url2filename` (globals.js lines 271-285). */
  method Url2Filename(url: JsValue, sha1: string -> Sha1Words) returns (r: string)
    ensures r == Url2FilenameOf(url, sha1)
  {
    if !url.Str? {
      return InvalidFilename;
    }
    var normalizedUrl := UrlNormalize.NormalizeUrl(url.s);
    var digest := ComputeSha1(sha1(normalizedUrl));
    var code := Base32.Encode(digest);
    var hashcode := Lower(code)[..HashPartLength];
    var foldernum := digest[|digest| - 1] as nat % 32;
    var folderstr := Decimal(foldernum) + "/";
    if foldernum < 10 {
      folderstr := "0" + folderstr;
    }
    r := folderstr + hashcode + ".json";
  }

  // ---------------------------------------------------------------------------
  // What a file name looks like
  // ---------------------------------------------------------------------------

  /** The folder prefix is two decimal digits denoting the folder number, then `/`. */
  lemma FolderPrefixShape(n: nat)
    requires n < 100
    ensures |FolderPrefix(n)| == 3 && FolderPrefix(n)[2] == '/'
    ensures IsDigit(FolderPrefix(n)[0]) && IsDigit(FolderPrefix(n)[1])
    ensures DigitsValue(FolderPrefix(n)[..2]) == n
  {
    var f := FolderPrefix(n);
    if n < 10 {
      assert f[..2] == "0" + [DigitChar(n)];
      assert ("0" + [DigitChar(n)])[..1] == "0";
      assert DigitsValue("0") == 0 by { assert "0"[..0] == []; }
    } else {
      assert Decimal(n) == Decimal(n / 10) + [DigitChar(n % 10)];
      assert f[..2] == Decimal(n);
      DecimalValue(n);
    }
  }

  /** Every base-32 character is one of the lower-case alphabet. */
  lemma ReferenceChars(d: seq<bv8>)
    ensures forall i :: 0 <= i < |Base32.Reference(d)| ==> Base32.Reference(d)[i] in Base32.Alphabet
    ensures IsLowerCase(Base32.Reference(d))
  {
    var r := Base32.Reference(d);
    forall i | 0 <= i < |r|
      ensures r[i] in Base32.Alphabet && !IsUpper(r[i])
    {
      var g := Base32.QuantumGroup(Base32.Quantum(d, i / 8), i % 8) as int;
      assert r[i] == Base32.Alphabet[g];
      AlphabetLower(g);
    }
  }

  lemma AlphabetLower(g: nat)
    requires g < 32
    ensures !IsUpper(Base32.Alphabet[g])
  {
    assert forall k :: 0 <= k < 32 ==> !IsUpper(Base32.Alphabet[k]);
  }

  /**
   * The file name of a 20-byte digest: two digits naming folder `last byte mod 32`,
   * a `/`, the first 22 characters of the base-32 encoding of the digest, `.json`.
   */
  lemma FilenameShape(digest: seq<bv8>)
    requires |digest| == 20
    ensures var r := DigestFilename(digest);
      && |r| == 30 && r[2] == '/' && IsDigit(r[0]) && IsDigit(r[1])
      && DigitsValue(r[..2]) == digest[19] as nat % 32
      && r[3..25] == Base32.Reference(digest)[..HashPartLength]
      && (forall i :: 3 <= i < 25 ==> r[i] in Base32.Alphabet)
      && r[25..] == ".json"
  {
    var n := digest[19] as nat % 32;
    FolderPrefixShape(n);
    ReferenceChars(digest);
    LowerOfLowerCase(Base32.Reference(digest));
    var r := DigestFilename(digest);
    var f := FolderPrefix(n);
    var code := Base32.Reference(digest)[..HashPartLength];
    assert r == f + code + ".json";
    assert r[..2] == f[..2];
    assert r[3..25] == code;
    forall i | 3 <= i < 25
      ensures r[i] in Base32.Alphabet
    {
      assert r[i] == code[i - 3] == Base32.Reference(digest)[i - 3];
    }
  }

  /** No string URL is ever stored under the name reserved for invalid input. */
  lemma InvalidFilenameReserved(url: JsValue, sha1: string -> Sha1Words)
    ensures Url2FilenameOf(url, sha1) == InvalidFilename <==> !url.Str?
  {
    if url.Str? {
      DigestNotInvalid(Unpacked(sha1(UrlNormalize.NormalizeUrl(url.s))));
    }
  }

  /** A digest's file name has a base-32 character where the reserved name has `_`. */
  lemma DigestNotInvalid(digest: seq<bv8>)
    requires |digest| == 20
    ensures DigestFilename(digest) != InvalidFilename
  {
    var c := HashFirstChar(digest);
    ReservedNotBase32();
    assert c != InvalidFilename[3];
  }

  /** The reserved name has `_`, outside the base-32 alphabet, where a digest has its first digit. */
  lemma ReservedNotBase32()
    ensures |InvalidFilename| == 30 && InvalidFilename[3] !in Base32.Alphabet
  {
    assert InvalidFilename[3] == '_';
  }

  /** The character after the folder prefix is a base-32 digit. */
  lemma HashFirstChar(digest: seq<bv8>) returns (c: char)
    requires |digest| == 20
    ensures c == DigestFilename(digest)[3] && c in Base32.Alphabet
  {
    FilenameShape(digest);
    c := DigestFilename(digest)[3];
  }
}
