/**
 * The GitLab backend of the browser client (pagemarks/js/gitlab.js): the path of a
 * record in the repository API, the request each operation sends, how the HTTP
 * status of the answer is routed to the success or the error continuation, the
 * distinguished "name already exists" conflict of a move, and the check that an
 * access token has the `api` scope.
 *
 * `$.ajax` is not modelled: a request is a value, and the answer to it is a
 * `Reply` given from outside. The continuations become the result `Answer`.
 */
module GitLab {

  import opened Wrappers
  import opened Text
  import opened JsValues
  import Records
  import BookmarkDiffs
  import Base32
  import Addressing
  import EditDialog

  // ---------------------------------------------------------------------------
  // Paths
  // ---------------------------------------------------------------------------

  /** `s.replace(c, r)` with a one-character pattern: only the first `c` is replaced by `r`. */
  function ReplaceFirstBy(s: string, c: char, r: string): (t: string)
    ensures IndexOf(s, c) < 0 ==> t == s
    ensures IndexOf(s, c) >= 0 ==> t == s[..IndexOf(s, c)] + r + s[IndexOf(s, c) + 1..]
  {
    var i := IndexOf(s, c);
    if i < 0 then s else s[..i] + r + s[i + 1..]
  }

  /** `id2path(bookmarkId)` (gitlab.js lines 37-39). */
  function Id2Path(id: string): string {
    "%2F" + ReplaceFirstBy(id, '-', "%2F") + "%2Ejson"
  }

  /** A path with its `/` and `.` percent-encoded, as the repository files API expects it. */
  function Escaped(p: string): (r: string)
  {
    if p == [] then []
    else (if p[0] == '/' then "%2F" else if p[0] == '.' then "%2E" else [p[0]]) + Escaped(p[1..])
  }

  lemma {:induction false} EscapedAppend(a: string, b: string)
    ensures Escaped(a + b) == Escaped(a) + Escaped(b)
  {
    if a != [] {
      assert (a + b)[1..] == a[1..] + b;
      EscapedAppend(a[1..], b);
    } else {
      assert a + b == b;
    }
  }

  /** No `/`, `.` or `-`: a part of a record's file name that the encoding leaves alone. */
  predicate PlainSegment(x: string) {
    forall i :: 0 <= i < |x| ==> x[i] != '/' && x[i] != '.' && x[i] != '-'
  }

  lemma {:induction false} EscapedPlain(x: string)
    requires PlainSegment(x)
    ensures Escaped(x) == x
  {
    if x != [] {
      EscapedPlain(x[1..]);
    }
  }

  lemma IndexOfNone(x: string, c: char)
    requires forall i :: 0 <= i < |x| ==> x[i] != c
    ensures IndexOf(x, c) < 0
  {
  }

  /**
   * For the id of a record stored at `folder/hash.json`, `id2path` is that file's
   * location below the collection, with `/` and `.` encoded: the request reaches the
   * file the record lives in.
   */
  /** The only `-` of a record's id is the one after the folder. */
  lemma ReplaceIdDash(folder: string, hash: string)
    requires PlainSegment(folder)
    ensures ReplaceFirstBy(folder + "-" + hash, '-', "%2F") == folder + "%2F" + hash
  {
    var id := folder + "-" + hash;
    IndexOfNone(folder, '-');
    Records.IndexOfAfter(folder, "-" + hash, '-');
    assert id == folder + ("-" + hash);
    assert id[..|folder|] == folder;
    assert id[|folder| + 1..] == hash;
  }

  /** Encoding the location of `folder/hash.json` touches only its separators. */
  lemma EscapedLocation(folder: string, hash: string)
    requires PlainSegment(folder) && PlainSegment(hash)
    ensures Escaped("/" + folder + "/" + hash + ".json") == "%2F" + folder + "%2F" + hash + "%2Ejson"
  {
    EscapedPlain(folder);
    EscapedPlain(hash);
    EscapedSeparators();
    var a := "/" + folder;
    var b := a + "/";
    var c := b + hash;
    EscapedStep("/", folder, "%2F", folder);
    EscapedStep(a, "/", "%2F" + folder, "%2F");
    EscapedStep(b, hash, "%2F" + folder + "%2F", hash);
    EscapedStep(c, ".json", "%2F" + folder + "%2F" + hash, "%2Ejson");
  }

  lemma EscapedSeparators()
    ensures Escaped("/") == "%2F" && Escaped(".json") == "%2Ejson"
  {
    assert "/"[1..] == [];
    EscapedJson();
  }

  lemma EscapedJson()
    ensures Escaped(".json") == "%2Ejson"
  {
    assert Escaped("n") == "n" by { assert "n"[1..] == []; }
    assert Escaped("on") == "on" by { assert "on"[1..] == "n"; }
    assert Escaped("son") == "son" by { assert "son"[1..] == "on"; }
    assert Escaped("json") == "json" by { assert "json"[1..] == "son"; }
    assert ".json"[1..] == "json";
  }

  lemma EscapedStep(x: string, y: string, ex: string, ey: string)
    requires Escaped(x) == ex && Escaped(y) == ey
    ensures Escaped(x + y) == ex + ey
  {
    EscapedAppend(x, y);
  }

  /**
   * For the id of a record stored at `folder/hash.json`, `id2path` is that file's
   * location below the collection, with `/` and `.` encoded: the request reaches the
   * file the record lives in.
   */
  lemma Id2PathOfFile(folder: string, hash: string)
    requires PlainSegment(folder) && PlainSegment(hash)
    ensures Id2Path(folder + "-" + hash) == Escaped("/" + folder + "/" + hash + ".json")
  {
    ReplaceIdDash(folder, hash);
    EscapedLocation(folder, hash);
  }

  /** A record file `folder/hash.json` is split into its parts. */
  lemma DigestFileParts(d: seq<bv8>) returns (folder: string, hash: string)
    requires |d| == 20
    ensures PlainSegment(folder) && PlainSegment(hash)
    ensures Addressing.DigestFilename(d) == folder + "/" + hash + ".json"
  {
    var f := Addressing.DigestFilename(d);
    Addressing.FilenameShape(d);
    folder := f[..2];
    hash := f[3..25];
    FilePartsPlain(f);
    FileSplit(f);
  }

  /** The two digits and the base-32 characters hold no separator. */
  lemma FilePartsPlain(f: string)
    requires |f| == 30 && IsDigit(f[0]) && IsDigit(f[1])
    requires forall i :: 3 <= i < 25 ==> f[i] in Base32.Alphabet
    ensures PlainSegment(f[..2]) && PlainSegment(f[3..25])
  {
    TwoDigitsPlain(f[..2]);
    var hash := f[3..25];
    forall i | 0 <= i < |hash| ensures hash[i] != '/' && hash[i] != '.' && hash[i] != '-' {
      assert hash[i] == f[i + 3];
      AlphabetPlain(f[i + 3]);
    }
  }

  lemma TwoDigitsPlain(d: string)
    requires |d| == 2 && IsDigit(d[0]) && IsDigit(d[1])
    ensures PlainSegment(d)
  {
  }

  /** No base-32 character is a path or id separator. */
  lemma AlphabetPlain(c: char)
    requires c in Base32.Alphabet
    ensures c != '/' && c != '.' && c != '-'
  {
  }

  lemma FileSplit(f: string)
    requires |f| == 30 && f[2] == '/' && f[25..] == ".json"
    ensures f == f[..2] + "/" + f[3..25] + ".json"
  {
    assert f == f[..2] + [f[2]] + f[3..25] + f[25..];
  }

  /** The id of `folder/hash.json` is `folder-hash` (edit.js line 419). */
  lemma NewIdOfFile(folder: string, hash: string)
    requires PlainSegment(folder)
    ensures EditDialog.NewId(folder + "/" + hash + ".json") == folder + "-" + hash
  {
    var rest := "/" + hash + ".json";
    var f := folder + rest;
    assert f == folder + "/" + hash + ".json";
    IndexOfNone(folder, '/');
    Records.IndexOfAfter(folder, rest, '/');
    assert IndexOf(f, '/') == |folder|;
    var r := EditDialog.ReplaceFirst(f, '/', '-');
    assert r == f[..|folder|] + "-" + f[|folder| + 1..];
    assert f[..|folder|] == folder;
    assert f[|folder| + 1..] == hash + ".json";
    var g := folder + "-" + hash;
    assert r == g + ".json";
    assert r[..|r| - 5] == g;
  }

  /** A record file `folder/hash.json` whose parts have no separators is reached through its id. */
  lemma Id2PathOfParts(f: string, folder: string, hash: string)
    requires PlainSegment(folder) && PlainSegment(hash) && f == folder + "/" + hash + ".json"
    ensures Id2Path(EditDialog.NewId(f)) == Escaped("/" + f)
  {
    NewIdOfFile(folder, hash);
    Id2PathOfFile(folder, hash);
    LeadingSlash(folder, hash);
  }

  lemma LeadingSlash(folder: string, hash: string)
    ensures "/" + (folder + "/" + hash + ".json") == "/" + folder + "/" + hash + ".json"
  {
  }

  /**
   * For every record file `url2filename` names, the id the edit dialog derives from
   * it (edit.js line 419) is sent to the very same file by `id2path`.
   */
  lemma Id2PathOfDigest(d: seq<bv8>)
    requires |d| == 20
    ensures Id2Path(EditDialog.NewId(Addressing.DigestFilename(d))) == Escaped("/" + Addressing.DigestFilename(d))
  {
    var folder, hash := DigestFileParts(d);
    Id2PathOfParts(Addressing.DigestFilename(d), folder, hash);
  }

  // ---------------------------------------------------------------------------
  // Requests
  // ---------------------------------------------------------------------------

  /** What the page's metadata supplies: the API URL, the project id, the collection, the branch. */
  datatype Metadata = Metadata(apiUrl: string, gitlabId: nat, collectionName: string, gitBranch: string)

  /** The one action of a move commit. */
  datatype Action = Action(action: string, filePath: string, previousPath: string, encoding: string, content: string)

  /** The data of a request, as the JSON (or the query) it is sent as. */
  datatype Body =
    | RefQuery(ref: string)
    | NoData
    | FileWrite(branch: string, encoding: string, content: string, commitMessage: string)
    | FileDelete(branch: string, commitMessage: string)
    | Commit(branch: string, commitMessage: string, actions: seq<Action>)

  /**
   * The `Private-Token` header a request carries: the stored token that `performCall`
   * puts in (gitlab.js lines 43-53), or a token the caller's own settings put in its place.
   */
  datatype TokenHeader = StoredToken | GivenToken(token: string)

  /** A request: its URL, HTTP method and data, the status code that means success, and its token header. */
  datatype Request = Request(url: string, verb: string, body: Body, expected: int, header: TokenHeader)

  /** The token a request sends when `stored` is what local storage holds. */
  function TokenSent(r: Request, stored: Option<string>): string {
    match r.header
    case StoredToken => PrivateToken(stored)
    case GivenToken(t) => t
  }

  const Suffix: string := " [pagemarks]"

  /** The URL of the record `id` in the repository files API. */
  function FileUrl(md: Metadata, id: string): string {
    md.apiUrl + "/projects/" + Decimal(md.gitlabId) + "/repository/files/" + md.collectionName + Id2Path(id)
  }

  /** `createBookmark64`: re-creates a removed record (gitlab.js lines 81-96). */
  function CreateRequest(md: Metadata, id: string, bookmarkUrl: string, content: string): Request {
    Request(FileUrl(md, id), "POST",
            FileWrite(md.gitBranch, "base64", content, "Undo removal of " + bookmarkUrl + Suffix), 201, StoredToken)
  }

  /** `fetchBookmark64` (gitlab.js lines 99-108). */
  function FetchRequest(md: Metadata, id: string): Request {
    Request(FileUrl(md, id), "GET", RefQuery(md.gitBranch), 200, StoredToken)
  }

  /** `updateBookmark64` (gitlab.js lines 123-137). */
  function UpdateRequest(md: Metadata, id: string, bookmarkUrl: string, content: string): Request {
    Request(FileUrl(md, id), "PUT",
            FileWrite(md.gitBranch, "base64", content, "Update metadata of " + bookmarkUrl + Suffix), 200, StoredToken)
  }

  /** `deleteBookmark` (gitlab.js lines 141-153). */
  function DeleteRequest(md: Metadata, id: string, bookmarkUrl: string): Request {
    Request(FileUrl(md, id), "DELETE", FileDelete(md.gitBranch, "Remove " + bookmarkUrl + Suffix), 204,
            StoredToken)
  }

  /** `moveUpdateBookmark64`: one commit moving the record and writing its new content (gitlab.js lines 157-176). */
  function MoveRequest(md: Metadata, bookmarkUrl: string, sourceLoc: string, targetLoc: string, content: string): Request {
    Request(md.apiUrl + "/projects/" + Decimal(md.gitlabId) + "/repository/commits", "POST",
            Commit(md.gitBranch, "Change 'url' to " + bookmarkUrl + Suffix,
                   [Action("move", targetLoc, sourceLoc, "base64", content)]), 201, StoredToken)
  }

  /**
   * `validateToken`'s request (gitlab.js lines 207-214): no data, and the token under
   * test, trimmed, in place of the stored one.
   */
  function ValidateRequest(md: Metadata, token: string): (r: Request)
    ensures r.verb == "GET" && r.expected == 200 && r.body == NoData
    ensures r.url == md.apiUrl + "/personal_access_tokens"
    ensures forall stored :: TokenSent(r, stored) == Trim(Js, token)
  {
    Request(md.apiUrl + "/personal_access_tokens", "GET", NoData, 200, GivenToken(Trim(Js, token)))
  }

  /**
   * The operations and what they send: create POST 201, fetch GET 200, update PUT
   * 200, delete DELETE 204, move POST to `/commits` 201; every commit message names
   * the bookmark's URL and ends with ` [pagemarks]`; the move carries exactly one
   * `move` action from the source to the target, with the base-64 content.
   */
  lemma RequestsShape(md: Metadata, id: string, u: string, src: string, dst: string, c: string)
    ensures var r := CreateRequest(md, id, u, c);
      r.verb == "POST" && r.expected == 201 && r.body.FileWrite? && r.body.content == c
      && r.body.encoding == "base64" && EndsWith(r.body.commitMessage, Suffix)
      && r.body.commitMessage == "Undo removal of " + u + Suffix
    ensures var r := FetchRequest(md, id); r.verb == "GET" && r.expected == 200 && r.body == RefQuery(md.gitBranch)
    ensures var r := UpdateRequest(md, id, u, c);
      r.verb == "PUT" && r.expected == 200 && r.body.FileWrite? && r.body.content == c
      && EndsWith(r.body.commitMessage, Suffix) && r.body.commitMessage == "Update metadata of " + u + Suffix
    ensures var r := DeleteRequest(md, id, u);
      r.verb == "DELETE" && r.expected == 204 && r.body.FileDelete?
      && EndsWith(r.body.commitMessage, Suffix) && r.body.commitMessage == "Remove " + u + Suffix
    ensures var r := MoveRequest(md, u, src, dst, c);
      r.verb == "POST" && r.expected == 201 && EndsWith(r.url, "/commits") && r.body.Commit?
      && |r.body.actions| == 1 && r.body.actions[0].action == "move"
      && r.body.actions[0].filePath == dst && r.body.actions[0].previousPath == src
      && r.body.actions[0].content == c && r.body.actions[0].encoding == "base64"
      && r.body.commitMessage == "Change 'url' to " + u + Suffix
    ensures CreateRequest(md, id, u, c).url == FetchRequest(md, id).url == UpdateRequest(md, id, u, c).url
            == DeleteRequest(md, id, u).url
    ensures CreateRequest(md, id, u, c).header == FetchRequest(md, id).header == UpdateRequest(md, id, u, c).header
            == DeleteRequest(md, id, u).header == MoveRequest(md, u, src, dst, c).header == StoredToken
    ensures forall stored :: TokenSent(MoveRequest(md, u, src, dst, c), stored) == PrivateToken(stored)
  {
    var m := MoveRequest(md, u, src, dst, c);
    assert m.url == (md.apiUrl + "/projects/" + Decimal(md.gitlabId) + "/repository") + "/commits";
    assert "Undo removal of " + u + Suffix == ("Undo removal of " + u) + Suffix;
    assert "Update metadata of " + u + Suffix == ("Update metadata of " + u) + Suffix;
    assert "Remove " + u + Suffix == ("Remove " + u) + Suffix;
  }

  /**
   * The `Private-Token` header (gitlab.js lines 43, 52): the stored token trimmed,
   * or `NOT-SET` when there is none or it is the empty string.
   */
  function PrivateToken(token: Option<string>): (r: string)
    ensures token.None? || token == Some("") ==> r == "NOT-SET"
    ensures token.Some? && token.value != "" ==> r == Trim(Js, token.value)
  {
    if token.None? || token.value == "" then "NOT-SET" else Trim(Js, token.value)
  }

  /** `hasWriteAccess` (gitlab.js lines 27-34): a branch, not the demo, a project, and a token. */
  predicate HasWriteAccess(gitBranch: JsValue, demo: bool, gitlabId: int, tokenPresent: bool, token: Option<string>) {
    gitBranch.Str? && !demo && gitlabId > 0 && tokenPresent && token.Some?
  }

  // ---------------------------------------------------------------------------
  // Answers
  // ---------------------------------------------------------------------------

  /**
   * What `$.ajax` reports: `done` with the status and the parsed response, or
   * `fail` with the status and the raw response text.
   */
  datatype Reply = Done(status: int, response: JsValue) | Failed(status: int, responseText: JsValue)

  /**
   * Which continuation runs: success with the response, or the error continuation
   * with a status (absent when the caller passes none) and a text. `Raised` is a
   * `TypeError` thrown inside the `done` handler before any continuation runs.
   */
  datatype Answer = Ok(value: JsValue) | UrlExists | Fail(status: Option<int>, text: JsValue) | Raised

  /**
   * `performCall` (gitlab.js lines 59-77). The success continuation runs exactly when
   * the status is the expected one; otherwise the error continuation gets that status,
   * unless reading `response.content` of an unexpected `done` answer throws, which it
   * does when the response is `null` or `undefined`.
   */
  function PerformCall(expected: int, reply: Reply): (r: Answer)
    ensures r.Ok? <==> reply.Done? && reply.status == expected
    ensures r.Ok? ==> r.value == reply.response
    ensures r.Fail? ==> r.status == Some(reply.status)
    ensures r.Raised? <==> reply.Done? && reply.status != expected && BookmarkDiffs.Nullish(reply.response)
    ensures !r.UrlExists?
  {
    match reply
    case Done(status, response) =>
      if status == expected then Ok(response)
      else
        (match Get(response, "content")
         case Failure(_) => Raised
         case Success(content) => Fail(Some(status), content))
    case Failed(status, text) => Fail(Some(status), text)
  }

  /** A success continuation that takes no argument. */
  function Acknowledged(a: Answer): Answer {
    if a.Ok? then Ok(Undefined) else a
  }

  function CreateAnswer(reply: Reply): Answer {
    Acknowledged(PerformCall(201, reply))
  }

  function UpdateAnswer(reply: Reply): Answer {
    Acknowledged(PerformCall(200, reply))
  }

  function DeleteAnswer(reply: Reply): Answer {
    Acknowledged(PerformCall(204, reply))
  }

  /**
   * `fetchBookmark64`'s continuation (gitlab.js lines 110-119): the content of a
   * base-64 answer, unchanged; another encoding calls the error continuation with
   * no argument.
   */
  function FetchAnswer(reply: Reply): (r: Answer)
  {
    match PerformCall(200, reply)
    case Ok(response) =>
      (match Get(response, "encoding")
       case Failure(_) => Raised
       case Success(encoding) =>
         if StrictEquals(encoding, Str("base64")) then
           match Get(response, "content")
           case Failure(_) => Raised
           case Success(content) => Ok(content)
         else Fail(None, Undefined))
    case other => other
  }

  lemma FetchAnswerMeaning(reply: Reply)
    ensures FetchAnswer(reply).Ok? <==>
      (reply.Done? && reply.status == 200 && reply.response.Obj? && Lookup(reply.response.entries, "encoding") == Str("base64"))
      || (reply.Done? && reply.status == 200 && !reply.response.Obj? && !BookmarkDiffs.Nullish(reply.response)
          && Get(reply.response, "encoding") == Success(Str("base64")))
    ensures FetchAnswer(reply).Ok? && reply.response.Obj? ==>
      FetchAnswer(reply).value == Lookup(reply.response.entries, "content")
    ensures FetchAnswer(reply).UrlExists? == false
  {
  }

  /** The text the move's error continuation inspects reports that the target exists. */
  predicate NameExists(code: int, text: JsValue) {
    code == 400 && text.Str? && Contains(text.s, "name already exists")
  }

  /** `moveUpdateBookmark64`'s error continuation (gitlab.js lines 177-186). */
  function MoveAnswer(reply: Reply): (r: Answer)
  {
    match PerformCall(201, reply)
    case Ok(_) => Ok(Undefined)
    case Fail(Some(code), text) => if NameExists(code, text) then UrlExists else Fail(Some(code), text)
    case other => other
  }

  /**
   * A move succeeds exactly on 201; a 400 whose text contains `name already exists`
   * is the conflict and calls only the "URL exists" continuation; every other
   * failure goes to the error continuation with its status and text.
   */
  lemma MoveClassified(reply: Reply)
    ensures MoveAnswer(reply).Ok? <==> reply.Done? && reply.status == 201
    ensures MoveAnswer(reply).UrlExists? <==>
      (reply.Failed? && NameExists(reply.status, reply.responseText))
      || (reply.Done? && reply.status != 201 && reply.response.Obj?
          && NameExists(reply.status, Lookup(reply.response.entries, "content")))
      || (reply.Done? && reply.status != 201 && !reply.response.Obj? && !BookmarkDiffs.Nullish(reply.response)
          && NameExists(reply.status, Get(reply.response, "content").value))
    ensures MoveAnswer(reply).Fail? ==>
      MoveAnswer(reply).status == Some(reply.status) && !NameExists(reply.status, MoveAnswer(reply).text)
  {
  }

  /** A server that reports the conflict as a failed 400 with the message gets it classified as the conflict. */
  lemma NameAlreadyExists(pre: string, post: string)
    ensures MoveAnswer(Failed(400, Str(pre + "name already exists" + post))) == UrlExists
  {
    var t := pre + "name already exists" + post;
    assert OccursAt(t, "name already exists", |pre|) by {
      assert t[|pre|..|pre| + |"name already exists"|] == "name already exists";
    }
  }

  // ---------------------------------------------------------------------------
  // Token validation
  // ---------------------------------------------------------------------------

  /** `Array.isArray(scopes) && scopes.indexOf('api') >= 0`. */
  predicate HasApiScope(scopes: JsValue) {
    scopes.Arr? && Includes(scopes.elems, Str("api"))
  }

  /** The search of the loop over the tokens, from the front: reading `scopes` of `null` throws. */
  function ScopeSearch(tokens: seq<JsValue>): (r: Result<bool, string>)
    ensures r.Failure? ==> r.error == TypeError
  {
    if tokens == [] then Success(false)
    else
      match Get(tokens[0], "scopes")
      case Failure(e) => Failure(e)
      case Success(scopes) => if HasApiScope(scopes) then Success(true) else ScopeSearch(tokens[1..])
  }

  /** `responseContainsApiScope(response)` as a function of the response. */
  function ContainsApiScope(response: JsValue): Result<bool, string> {
    if response.Arr? then ScopeSearch(response.elems) else Success(false)
  }

  /** Token `i` is readable and has the `api` scope. */
  predicate ApiToken(tokens: seq<JsValue>, i: int)
    requires 0 <= i < |tokens|
  {
    !BookmarkDiffs.Nullish(tokens[i]) && HasApiScope(Get(tokens[i], "scopes").value)
  }

  /** Some token has the `api` scope and none before it is `null` or `undefined`. */
  predicate ApiFirst(tokens: seq<JsValue>) {
    exists i :: 0 <= i < |tokens| && ApiToken(tokens, i) && forall j :: 0 <= j < i ==> !BookmarkDiffs.Nullish(tokens[j])
  }

  /** Some token is `null` or `undefined` and none before it has the `api` scope. */
  predicate NullishFirst(tokens: seq<JsValue>) {
    exists i :: 0 <= i < |tokens| && BookmarkDiffs.Nullish(tokens[i]) && forall j :: 0 <= j < i ==> !ApiToken(tokens, j)
  }

  lemma ApiFirstStep(tokens: seq<JsValue>)
    requires tokens != [] && !BookmarkDiffs.Nullish(tokens[0]) && !ApiToken(tokens, 0)
    ensures ApiFirst(tokens) <==> ApiFirst(tokens[1..])
  {
    var t := tokens[1..];
    if ApiFirst(t) {
      var i :| 0 <= i < |t| && ApiToken(t, i) && forall j :: 0 <= j < i ==> !BookmarkDiffs.Nullish(t[j]);
      assert ApiToken(tokens, i + 1);
      forall j | 0 < j < i + 1 ensures !BookmarkDiffs.Nullish(tokens[j]) {
        assert tokens[j] == t[j - 1];
      }
    }
    if ApiFirst(tokens) {
      var i :| 0 <= i < |tokens| && ApiToken(tokens, i) && forall j :: 0 <= j < i ==> !BookmarkDiffs.Nullish(tokens[j]);
      assert i > 0 && ApiToken(t, i - 1);
      forall j | 0 <= j < i - 1 ensures !BookmarkDiffs.Nullish(t[j]) {
        assert t[j] == tokens[j + 1];
      }
    }
  }

  lemma NullishFirstStep(tokens: seq<JsValue>)
    requires tokens != [] && !BookmarkDiffs.Nullish(tokens[0]) && !ApiToken(tokens, 0)
    ensures NullishFirst(tokens) <==> NullishFirst(tokens[1..])
  {
    var t := tokens[1..];
    if NullishFirst(t) {
      var i :| 0 <= i < |t| && BookmarkDiffs.Nullish(t[i]) && forall j :: 0 <= j < i ==> !ApiToken(t, j);
      assert BookmarkDiffs.Nullish(tokens[i + 1]);
      forall j | 0 < j < i + 1 ensures !ApiToken(tokens, j) {
        assert tokens[j] == t[j - 1];
        assert !ApiToken(t, j - 1);
      }
    }
    if NullishFirst(tokens) {
      var i :| 0 <= i < |tokens| && BookmarkDiffs.Nullish(tokens[i]) && forall j :: 0 <= j < i ==> !ApiToken(tokens, j);
      assert i > 0 && BookmarkDiffs.Nullish(t[i - 1]);
      forall j | 0 <= j < i - 1 ensures !ApiToken(t, j) {
        assert t[j] == tokens[j + 1];
        assert !ApiToken(tokens, j + 1);
      }
    }
  }

  /**
   * The result is true exactly when some token has the `api` scope and no token
   * before it is `null` or `undefined`; it throws exactly when such a token comes
   * first.
   */
  lemma {:induction false} ScopeSearchMeaning(tokens: seq<JsValue>)
    ensures ScopeSearch(tokens) == Success(true) <==> ApiFirst(tokens)
    ensures ScopeSearch(tokens).Failure? <==> NullishFirst(tokens)
  {
    if tokens != [] {
      if BookmarkDiffs.Nullish(tokens[0]) {
        assert NullishFirst(tokens) by { assert BookmarkDiffs.Nullish(tokens[0]); }
        assert !ApiFirst(tokens);
      } else if ApiToken(tokens, 0) {
        assert ApiFirst(tokens) by { assert ApiToken(tokens, 0); }
        assert !NullishFirst(tokens);
      } else {
        ScopeSearchMeaning(tokens[1..]);
        ApiFirstStep(tokens);
        NullishFirstStep(tokens);
      }
    }
  }

  /** `responseContainsApiScope` (gitlab.js lines 191-203): a loop with a result flag and `break`. */
  method ResponseContainsApiScope(response: JsValue) returns (r: Result<bool, string>)
    ensures r == ContainsApiScope(response)
  {
    var result := false;
    if response.Arr? {
      var tokens := response.elems;
      var i := 0;
      while i < |tokens|
        invariant 0 <= i <= |tokens|
        invariant !result
        invariant ScopeSearch(tokens) == ScopeSearch(tokens[i..])
      {
        assert tokens[i..][1..] == tokens[i + 1..];
        var scopes := Get(tokens[i], "scopes");
        if scopes.Failure? {
          return Failure(scopes.error);
        }
        if HasApiScope(scopes.value) {
          result := true;
          break;
        }
        i := i + 1;
      }
    }
    r := Success(result);
  }

  /** What `validateToken` concludes (gitlab.js lines 206-227). */
  datatype Verdict = Valid | NotValid | Thrown

  /**
   * `validateToken`: a token is valid exactly when the answer is a 200 list holding an
   * `api`-scoped token before any `null` one.
   */
  function ValidateToken(reply: Reply): (v: Verdict)
    ensures v == Valid <==>
      reply.Done? && reply.status == 200 && reply.response.Arr? && ApiFirst(reply.response.elems)
  {
    if reply.Done? && reply.status == 200 && reply.response.Arr? then
      ScopeSearchMeaning(reply.response.elems);
      ValidateVerdict(reply)
    else ValidateVerdict(reply)
  }

  /** The continuations `validateToken` hands to `performCall` (gitlab.js lines 216-226). */
  function ValidateVerdict(reply: Reply): Verdict
  {
    match PerformCall(200, reply)
    case Ok(response) =>
      (match ContainsApiScope(response)
       case Success(b) => if b then Valid else NotValid
       case Failure(_) => Thrown)
    case Raised => Thrown
    case _ => NotValid
  }
}
