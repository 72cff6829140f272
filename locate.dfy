/**
 * The Python side of addressing (pagemarks/commands/locate.py): `url_to_filename`,
 * which must give the same path as the browser's `url2filename`, the argument check
 * of the `locate` command, and its search through the collections of a repository.
 *
 * SHA-1 and UTF-8 encoding are parameters; `base64.b32encode` is the padded,
 * upper-case encoding of section 6 of RFC 4648.
 */
module Locate {

  import opened Wrappers
  import opened Text
  import opened JsValues
  import UrlNormalize
  import Base32
  import Addressing

  /** A SHA-1 digest: 20 bytes. */
  type Digest = d: seq<bv8> | |d| == 20 witness seq(20, _ => 0)

  /** `BOOKMARK_ID_LEN_HASHPART` (pagemarks/framework/globals.py line 15). */
  const BookmarkIdLenHashPart: nat := 22

  /** `BOOKMARK_ID_LEN`: the folder, the `/` and the hash part (globals.py line 18). */
  const BookmarkIdLen: nat := BookmarkIdLenHashPart + 3

  /** The message `invalid_args` returns when the URL is missing. */
  const MissingUrl: string := "Missing argument 'URL'."

  /** The file name of a digest, as `url_to_filename` builds it (locate.py lines 71-77). */
  function DigestFilename(digest: Digest): string {
    var hashcode := Lower(Base32.PaddedReference(digest))[..BookmarkIdLenHashPart];
    var foldernum := digest[|digest| - 1] as nat % 32;
    var folderstr := if foldernum < 10 then "0" + Decimal(foldernum) else Decimal(foldernum);
    folderstr + "/" + hashcode + ".json"
  }

  /**
   * `CmdLocate.url_to_filename` (locate.py lines 64-77), with `utf8` and `sha1` given.
   * The name has the browser's shape: two digits naming folder `last byte mod 32`, `/`,
   * the first 22 base-32 characters of the digest, `.json`.
   */
  function UrlToFilename(url: string, utf8: string -> seq<bv8>, sha1: seq<bv8> -> Digest): (r: string)
    ensures var d := sha1(utf8(UrlNormalize.NormalizeUrlPy(url)));
      && |r| == BookmarkIdLen + 5 && r[2] == '/' && IsDigit(r[0]) && IsDigit(r[1])
      && DigitsValue(r[..2]) == d[19] as nat % 32
      && r[3..25] == Base32.Reference(d)[..BookmarkIdLenHashPart]
      && r[25..] == ".json"
  {
    var d := sha1(utf8(UrlNormalize.NormalizeUrlPy(url)));
    DigestFilenamesAgree(d);
    Addressing.FilenameShape(d);
    DigestFilename(d)
  }

  /** Lower-casing the upper-case alphabet gives the lower-case one. */
  lemma AlphabetsAgree()
    ensures forall g :: 0 <= g < 32 ==> LowerChar(Base32.UpperAlphabet[g]) == Base32.Alphabet[g]
  {
  }

  /** For a 20-byte digest the padded encoding has no `=`, and lower-cased it is the unpadded one. */
  lemma PaddedAgrees(d: Digest)
    ensures Lower(Base32.PaddedReference(d)) == Base32.Reference(d)
  {
    var p := Base32.PaddedReference(d);
    var r := Base32.Reference(d);
    AlphabetsAgree();
    forall k | 0 <= k < 32
      ensures Lower(p)[k] == r[k]
    {
      var g := Base32.QuantumGroup(Base32.Quantum(d, k / 8), k % 8) as int;
      assert p[k] == Base32.UpperAlphabet[g];
      assert r[k] == Base32.Alphabet[g];
    }
  }

  /** For equal digests, the Python file name is the browser's. */
  lemma DigestFilenamesAgree(d: Digest)
    ensures DigestFilename(d) == Addressing.DigestFilename(d)
  {
    PaddedAgrees(d);
    Addressing.ReferenceChars(d);
    LowerOfLowerCase(Base32.Reference(d));
    var n := d[19] as nat % 32;
    if n < 10 {
      assert "0" + Decimal(n) + "/" == "0" + (Decimal(n) + "/");
    }
  }

    /**
   * With the browser's pattern anchored, the two sides store every URL without a
   * JavaScript line terminator and without U+017F at the same path, provided both
   * hash the same bytes (CryptoJS hashes the UTF-8 encoding, as Python does).
   */
  lemma FilenamesAgree(url: string, jsSha1: string -> Addressing.Sha1Words, utf8: string -> seq<bv8>,
                       sha1: seq<bv8> -> Digest)
    requires UrlNormalize.NoLineTerminator(Js, url) && !HasChar(url, '\U{017F}')
    requires Addressing.Unpacked(jsSha1(UrlNormalize.NormalizeUrlPy(url))) == sha1(utf8(UrlNormalize.NormalizeUrlPy(url)))
    ensures Addressing.Url2FilenameAnchoredOf(Str(url), jsSha1) == UrlToFilename(url, utf8, sha1)
  {
    UrlNormalize.AnchoredAgrees(url);
    DigestFilenamesAgree(sha1(utf8(UrlNormalize.NormalizeUrlPy(url))));
  }

  /** Where the browser's search finds the URL at the start, `url2filename` as written agrees too. */
  lemma FilenamesAgreeAtStart(url: string, jsSha1: string -> Addressing.Sha1Words, utf8: string -> seq<bv8>,
                              sha1: seq<bv8> -> Digest)
    requires UrlNormalize.FirstMatch(url, 0) == Some(0)
    requires Addressing.Unpacked(jsSha1(UrlNormalize.NormalizeUrlPy(url))) == sha1(utf8(UrlNormalize.NormalizeUrlPy(url)))
    ensures Addressing.Url2FilenameOf(Str(url), jsSha1) == UrlToFilename(url, utf8, sha1)
  {
    UrlNormalize.JsAgreesAtZero(url);
    DigestFilenamesAgree(sha1(utf8(UrlNormalize.NormalizeUrlPy(url))));
  }

  /** `CmdLocate.invalid_args` (locate.py lines 44-47); `None` models a missing argument. */
  function InvalidArgs(url: Option<string>): (r: Option<string>)
    ensures r.Some? ==> r.value == MissingUrl
  {
    if url.None? || |Trim(Py, url.value)| == 0 then Some(MissingUrl) else None
  }

  /** The URL is rejected exactly when it is missing or Python white space only. */
  lemma InvalidArgsRejects(url: Option<string>)
    ensures InvalidArgs(url).Some? <==>
      url.None? || forall i :: 0 <= i < |url.value| ==> IsPySpace(url.value[i])
  {
    if url.Some? {
      TrimEmpty(Py, url.value);
    }
  }

  /** A collection as `execute` sees it: its name and its directory. */
  datatype CollectionRef = CollectionRef(name: string, collDir: string)

  /** `execute` looks into a collection unless another one was selected. */
  predicate Selected(selection: Option<string>, c: CollectionRef) {
    selection.None? || selection.value == c.name
  }

  /**
   * The lines `execute` reports: `name/path` for every selected collection holding
   * the file, in order. `isFile(dir, path)` stands for `os.path.isfile(os.path.join(dir, path))`.
   */
  function Found(colls: seq<CollectionRef>, selection: Option<string>, path: string,
                 isFile: (string, string) -> bool): (r: seq<string>)
    ensures |r| <= |colls|
    ensures r == [] <==> forall i :: 0 <= i < |colls| ==> !(Selected(selection, colls[i]) && isFile(colls[i].collDir, path))
  {
    if colls == [] then []
    else
      var c := colls[|colls| - 1];
      var front := Found(colls[..|colls| - 1], selection, path, isFile);
      if Selected(selection, c) && isFile(c.collDir, path) then front + [c.name + "/" + path] else front
  }

  /** One more collection: its hit, if any, comes after those of the collections before it. */
  lemma FoundStep(colls: seq<CollectionRef>, i: nat, selection: Option<string>, path: string,
                  isFile: (string, string) -> bool)
    requires i < |colls|
    ensures Found(colls[..i + 1], selection, path, isFile)
         == Found(colls[..i], selection, path, isFile)
            + (if Selected(selection, colls[i]) && isFile(colls[i].collDir, path) then [colls[i].name + "/" + path] else [])
  {
    assert colls[..i + 1][..i] == colls[..i];
  }

  /**
   * `CmdLocate.execute` (locate.py lines 50-61): the report of every hit, and the
   * `PagemarksFailure('not found')` it raises when the file must exist and was found nowhere.
   */
  method Execute(url: string, utf8: string -> seq<bv8>, sha1: seq<bv8> -> Digest, colls: seq<CollectionRef>,
                 selection: Option<string>, mustExist: bool, isFile: (string, string) -> bool)
    returns (reported: seq<string>, failure: Option<string>)
    ensures reported == Found(colls, selection, UrlToFilename(url, utf8, sha1), isFile)
    ensures failure == Some("not found") <==> mustExist && reported == []
    ensures failure.Some? ==> failure == Some("not found")
  {
    var pathInColl := UrlToFilename(url, utf8, sha1);
    var found := false;
    reported := [];
    var i := 0;
    while i < |colls|
      invariant 0 <= i <= |colls|
      invariant reported == Found(colls[..i], selection, pathInColl, isFile)
      invariant found <==> reported != []
    {
      var coll := colls[i];
      FoundStep(colls, i, selection, pathInColl, isFile);
      if selection.Some? && selection.value != coll.name {
        i := i + 1;
        continue;
      }
      if isFile(coll.collDir, pathInColl) {
        found := true;
        reported := reported + [coll.name + "/" + pathInColl];
      }
      i := i + 1;
    }
    assert colls[..i] == colls;
    failure := if mustExist && !found then Some("not found") else None;
  }
}
