/**
 * The template contexts of the Python generator (pagemarks/framework/render.py): what a
 * bookmark card and a collection page are given to show. `html.escape`,
 * `urllib.parse.quote` and `unquote` are parameters.
 */
module Render {

  import opened Wrappers
  import opened Text
  import Repository
  import EditDialog

  /** The name length above which a card shows a shortened name. */
  const LongName: nat := 90

  /** The number of characters of a long name that are kept. */
  const KeptOfLongName: nat := 86

  // ---------------------------------------------------------------------------
  // The URL part of the search text
  // ---------------------------------------------------------------------------

  /** `remove_protocol(url)`: one leading `https://`, `http://` or `ftp://` goes. */
  function RemoveProtocol(url: string): string
  {
    if StartsWith(url, "https://") then url[8..]
    else if StartsWith(url, "http://") then url[7..]
    else if StartsWith(url, "ftp://") then url[6..]
    else url
  }

  /** `remove_extension(url)`: one trailing `.html` or `.shtml` goes. */
  function RemoveExtension(url: string): string
  {
    if EndsWith(url, ".html") then url[..|url| - 5]
    else if EndsWith(url, ".shtml") then url[..|url| - 6]
    else url
  }

  /**
   * `remove_protocol` takes away exactly the one protocol the text starts with, and
   * leaves a text starting with none of the three alone.
   */
  lemma RemoveProtocolMeaning(url: string)
    ensures exists p :: p in ["", "https://", "http://", "ftp://"] && url == p + RemoveProtocol(url)
    ensures RemoveProtocol(url) == url <==>
      !StartsWith(url, "https://") && !StartsWith(url, "http://") && !StartsWith(url, "ftp://")
  {
    var r := RemoveProtocol(url);
    if StartsWith(url, "https://") {
      assert url == "https://" + r;
    } else if StartsWith(url, "http://") {
      assert url == "http://" + r;
    } else if StartsWith(url, "ftp://") {
      assert url == "ftp://" + r;
    } else {
      assert url == "" + r;
    }
  }

  /** `remove_extension` takes away exactly the one extension the text ends with. */
  lemma RemoveExtensionMeaning(url: string)
    ensures exists e :: e in ["", ".html", ".shtml"] && url == RemoveExtension(url) + e
    ensures RemoveExtension(url) == url <==> !EndsWith(url, ".html") && !EndsWith(url, ".shtml")
  {
    var r := RemoveExtension(url);
    if EndsWith(url, ".html") {
      assert url == r + ".html";
    } else if EndsWith(url, ".shtml") {
      assert url == r + ".shtml";
    } else {
      assert url == r + "";
    }
  }

  /**
   * The Python search text keeps an `ftps://` the client's pattern strips: the two
   * implementations index such a URL differently.
   */
  lemma FtpsDivergence(u: string)
    requires StartsWith(Lower(u), "ftps://")
    ensures RemoveProtocol(Lower(u)) == Lower(u)
    ensures EditDialog.ProtocolLength(u) == 7
  {
    var l := Lower(u);
    assert l[..4] == "ftps://"[..4];
    assert l[3] == 's';
    assert !StartsWith(l, "ftp://") by { assert l[..6][3] != "ftp://"[3]; }
    assert EditDialog.StartsWithCi(u, "ftps://") by {
      assert Lower(u[..7]) == l[..7];
    }
    assert !EditDialog.StartsWithCi(u, "https://") && !EditDialog.StartsWithCi(u, "http://") by {
      if |u| >= 8 { assert Lower(u[..8])[0] == l[0]; }
      if |u| >= 7 { assert Lower(u[..7])[0] == l[0]; }
    }
  }

  /**
   * The Python search text keeps a `.htm` ending the client's pattern strips. The
   * client also strips endings such as `/html` and `xhtml`, any character before
   * `s?html?`, which the generator keeps as well.
   */
  lemma HtmDivergence(r: string)
    requires EndsWith(Lower(r), ".htm")
    ensures RemoveExtension(Lower(r)) == Lower(r)
    ensures EditDialog.ExtensionLength(r, EditDialog.AnyChar) >= 4
  {
    var l := Lower(r);
    assert l[|l| - 1] == 'm';
    assert !EndsWith(l, ".html") && !EndsWith(l, ".shtml");
    var e := l[|l| - 4..];
    assert e == ".htm";
    LowerSuffix(r, 3);
    assert l[|l| - 3..] == e[1..];
    assert r[|r| - 4] == '.' by {
      assert l[|l| - 4] == e[0];
    }
    assert EditDialog.EndsWithEnding(r, "htm", EditDialog.AnyChar);
  }

  lemma LowerSuffix(r: string, k: nat)
    requires k <= |r|
    ensures Lower(r[|r| - k..]) == Lower(r)[|r| - k..]
  {
  }

  // ---------------------------------------------------------------------------
  // GenshiBookmarkContext
  // ---------------------------------------------------------------------------

  /** One tag of a card with the link that filters the page by it. */
  datatype TagData = TagData(tag: string, link: string)

  /** The link of a tag: the index page of the site with the tag as query. */
  function TagLink(baseurl: string, tag: string, escape: string -> string): string
  {
    escape(baseurl + "/index.html?q=[" + tag + "]")
  }

  /** The tag entries of a card: one per tag, in order. */
  function TagDataOf(baseurl: string, tags: seq<string>, escape: string -> string): (r: seq<TagData>)
    ensures |r| == |tags|
    ensures forall i :: 0 <= i < |tags| ==> r[i] == TagData(tags[i], TagLink(baseurl, tags[i], escape))
  {
    if tags == [] then []
    else TagDataOf(baseurl, tags[..|tags| - 1], escape) + [TagData(tags[|tags| - 1], TagLink(baseurl, tags[|tags| - 1], escape))]
  }

  /** `build_tag_data(tags)`. */
  method BuildTagData(baseurl: string, tags: seq<string>, escape: string -> string) returns (r: seq<TagData>)
    ensures r == TagDataOf(baseurl, tags, escape)
  {
    r := [];
    for i := 0 to |tags|
      invariant |r| == i
      invariant forall j :: 0 <= j < i ==> r[j] == TagData(tags[j], TagLink(baseurl, tags[j], escape))
    {
      r := r + [TagData(tags[i], TagLink(baseurl, tags[i], escape))];
    }
  }

  /** The URL as the search text holds it: decoded, lower-cased, protocol and extension gone, escaped. */
  function UrlSearchPart(url: string, escape: string -> string, unquote: string -> string): string
  {
    escape(RemoveExtension(RemoveProtocol(Lower(unquote(url)))))
  }

  /** The text `build_searchtext` builds for `bm`. */
  function SearchTextOf(bm: Repository.Bookmark, escape: string -> string, unquote: string -> string): string
  {
    (if bm.name.Some? then escape(Lower(bm.name.value)) else "")
    + (if |bm.tags| > 0 then " " else "")
    + Join(bm.tags, " ")
    + " "
    + UrlSearchPart(bm.url, escape, unquote)
  }

  /** `build_searchtext(bm)`. */
  method BuildSearchtext(bm: Repository.Bookmark, escape: string -> string, unquote: string -> string) returns (result: string)
    ensures result == SearchTextOf(bm, escape, unquote)
  {
    result := "";
    if bm.name.Some? {
      result := result + escape(Lower(bm.name.value));
    }
    if |bm.tags| > 0 {
      result := result + " ";
    }
    result := result + Join(bm.tags, " ");
    result := result + " ";
    result := result + UrlSearchPart(bm.url, escape, unquote);
  }

  /**
   * The layout of the search text: the name, a blank and the tags when there are any,
   * then always a blank and the URL; a bookmark with neither name nor tags gets a
   * leading blank.
   */
  lemma SearchTextLayout(bm: Repository.Bookmark, escape: string -> string, unquote: string -> string)
    ensures EndsWith(SearchTextOf(bm, escape, unquote), " " + UrlSearchPart(bm.url, escape, unquote))
    ensures bm.name.None? && bm.tags == [] ==> SearchTextOf(bm, escape, unquote) == " " + UrlSearchPart(bm.url, escape, unquote)
    ensures bm.name.Some? && bm.tags == [] ==>
      SearchTextOf(bm, escape, unquote) == escape(Lower(bm.name.value)) + " " + UrlSearchPart(bm.url, escape, unquote)
    ensures bm.name.Some? && bm.tags != [] ==>
      SearchTextOf(bm, escape, unquote) == escape(Lower(bm.name.value)) + " " + Join(bm.tags, " ") + " " + UrlSearchPart(bm.url, escape, unquote)
  {
    var t := SearchTextOf(bm, escape, unquote);
    var u := " " + UrlSearchPart(bm.url, escape, unquote);
    var front := (if bm.name.Some? then escape(Lower(bm.name.value)) else "")
      + (if |bm.tags| > 0 then " " else "") + Join(bm.tags, " ");
    assert t == front + u;
    assert t[|t| - |u|..] == u;
  }

  /** `bm.id.replace('/', '-')`, and every character but a slash kept. */
  lemma {:induction false} ReplaceSlashes(s: string)
    ensures |Repository.ReplaceAll(s, '/', "-")| == |s|
    ensures forall i :: 0 <= i < |s| ==>
      Repository.ReplaceAll(s, '/', "-")[i] == if s[i] == '/' then '-' else s[i]
    decreases |s|
  {
    if s != [] {
      ReplaceSlashes(s[..|s| - 1]);
    }
  }

  /** What a card is given (`to_context`). */
  datatype BookmarkView = BookmarkView(baseurl: string, id: string, dateAddedSecs: Option<int>, allTags: string,
                                       nameSearchtext: string, isLongName: bool, name: Option<string>,
                                       truncatedName: Option<string>, urlUri: string, urlHtml: string,
                                       notes: Option<string>, tags: seq<TagData>)

  /** The fields `from_bookmark(bm)` sets whatever the bookmark holds. */
  function TextFieldsOf(v: BookmarkView, bm: Repository.Bookmark, escape: string -> string, unquote: string -> string)
    : BookmarkView
  {
    v.(id := Repository.ReplaceAll(bm.id, '/', "-"),
       allTags := Join(bm.tags, "\", \""),
       nameSearchtext := SearchTextOf(bm, escape, unquote),
       urlUri := bm.url,
       urlHtml := escape(bm.url),
       tags := TagDataOf(v.baseurl, bm.tags, escape))
  }

  /** The fields `from_bookmark(bm)` sets only when the bookmark has a value for them. */
  function OptionalFieldsOf(v: BookmarkView, bm: Repository.Bookmark, escape: string -> string): BookmarkView
  {
    var isLong := bm.name.Some? && |bm.name.value| > LongName;
    v.(dateAddedSecs := if bm.dateAdded.Some? then bm.dateAdded else v.dateAddedSecs,
       isLongName := isLong,
       name := if bm.name.Some? then Some(escape(bm.name.value)) else v.name,
       truncatedName := if isLong then Some(escape(bm.name.value[..KeptOfLongName] + " ...")) else v.truncatedName,
       notes := if bm.notes.Some? then Some(escape(bm.notes.value)) else v.notes)
  }

  /** The context after `from_bookmark(bm)` ran on the context `v`. */
  function FromBookmarkOf(v: BookmarkView, bm: Repository.Bookmark, escape: string -> string, unquote: string -> string)
    : BookmarkView
  {
    OptionalFieldsOf(TextFieldsOf(v, bm, escape, unquote), bm, escape)
  }

  /** The context `__init__` sets up before `from_bookmark`. */
  function Defaults(baseurl: string): BookmarkView
  {
    BookmarkView(baseurl, "", None, "", "", false, None, None, "", "", None, [])
  }

  /**
   * A fresh card context: no slash in the id, the date seconds exactly when the
   * bookmark has a date, a shortened name exactly for names over 90 characters, and that
   * name is the one the client shows. Names are sequences of characters here; Python counts
   * code points and JavaScript counts UTF-16 units, so the two agree on names without
   * characters outside the Basic Multilingual Plane only.
   */
  lemma CardContextMeaning(baseurl: string, bm: Repository.Bookmark, escape: string -> string, unquote: string -> string)
    ensures var v := FromBookmarkOf(Defaults(baseurl), bm, escape, unquote);
      && |v.id| == |bm.id| && (forall i :: 0 <= i < |v.id| ==> v.id[i] != '/')
      && v.dateAddedSecs == bm.dateAdded
      && (v.name.Some? <==> bm.name.Some?) && (v.notes.Some? <==> bm.notes.Some?)
      && (v.isLongName <==> bm.name.Some? && |bm.name.value| > LongName)
      && (v.truncatedName.Some? <==> v.isLongName)
      && (v.isLongName ==> v.truncatedName == Some(escape(EditDialog.ShownName(bm.name.value))))
      && |v.tags| == |bm.tags|
  {
    ReplaceSlashes(bm.id);
    if bm.name.Some? && |bm.name.value| > LongName {
      assert EditDialog.ShownName(bm.name.value) == bm.name.value[..KeptOfLongName] + " ...";
    }
  }

  /** `GenshiBookmarkContext`: its fields change as `from_bookmark` runs. */
  class BookmarkContext {
    var baseurl: string
    var id: string
    var dateAddedSecs: Option<int>
    var allTags: string
    var nameSearchtext: string
    var isLongName: bool
    var name: Option<string>
    var truncatedName: Option<string>
    var urlUri: string
    var urlHtml: string
    var notes: Option<string>
    var tags: seq<TagData>

    function View(): BookmarkView
      reads this
    {
      BookmarkView(baseurl, id, dateAddedSecs, allTags, nameSearchtext, isLongName, name, truncatedName,
                   urlUri, urlHtml, notes, tags)
    }

    /** `GenshiBookmarkContext(base_url, bm)`. */
    constructor (baseUrl: string, bm: Repository.Bookmark, escape: string -> string, unquote: string -> string)
      ensures View() == FromBookmarkOf(Defaults(baseUrl), bm, escape, unquote)
    {
      baseurl := baseUrl;
      id := "";
      dateAddedSecs := None;
      allTags := "";
      nameSearchtext := "";
      isLongName := false;
      name := None;
      truncatedName := None;
      urlUri := "";
      urlHtml := "";
      notes := None;
      tags := [];
      new;
      FromBookmark(bm, escape, unquote);
    }

    /** `from_bookmark(bm)`; a field the bookmark leaves empty keeps its value. */
    method FromBookmark(bm: Repository.Bookmark, escape: string -> string, unquote: string -> string)
      modifies this
      ensures View() == FromBookmarkOf(old(View()), bm, escape, unquote)
    {
      SetTextFields(bm, escape, unquote);
      SetOptionalFields(bm, escape);
    }

    /** The id, the tag string, the search text, the URL and the tag entries. */
    method SetTextFields(bm: Repository.Bookmark, escape: string -> string, unquote: string -> string)
      modifies this
      ensures View() == TextFieldsOf(old(View()), bm, escape, unquote)
    {
      SetLinkFields(bm, escape);
      var searchtext := BuildSearchtext(bm, escape, unquote);
      var tagData := BuildTagData(baseurl, bm.tags, escape);
      nameSearchtext, tags := searchtext, tagData;
    }

    /** The id with its slashes replaced, the tag string and the URL twice. */
    method SetLinkFields(bm: Repository.Bookmark, escape: string -> string)
      modifies this
      ensures View() == old(View()).(id := Repository.ReplaceAll(bm.id, '/', "-"),
                                     allTags := Join(bm.tags, "\", \""),
                                     urlUri := bm.url, urlHtml := escape(bm.url))
    {
      id := Repository.ReplaceAll(bm.id, '/', "-");
      allTags := Join(bm.tags, "\", \"");
      urlUri, urlHtml := bm.url, escape(bm.url);
    }

    /** The date, the name and its shortened form, and the notes, each only when present. */
    method SetOptionalFields(bm: Repository.Bookmark, escape: string -> string)
      modifies this
      ensures View() == OptionalFieldsOf(old(View()), bm, escape)
    {
      if bm.dateAdded.Some? {
        dateAddedSecs := bm.dateAdded;
      }
      isLongName := bm.name.Some? && |bm.name.value| > LongName;
      if bm.name.Some? {
        name := Some(escape(bm.name.value));
      }
      if isLongName {
        truncatedName := Some(escape(bm.name.value[..KeptOfLongName] + " ..."));
      }
      if bm.notes.Some? {
        notes := Some(escape(bm.notes.value));
      }
    }
  }

  // ---------------------------------------------------------------------------
  // GenshiCollectionContext
  // ---------------------------------------------------------------------------

  /** A CSS theme with the icon of the button that switches to the other one. */
  datatype ThemeData = ThemeData(name: string, otherIcon: string)

  /** A pinned filter, escaped for a URI and for HTML. */
  datatype FilterData = FilterData(uriEscaped: string, htmlEscaped: string)

  /** The icon shown for switching away from a theme whose own icon is `icon`. */
  function OtherIcon(icon: string): (r: string)
    ensures r == "moon-fill" <==> icon == "sun"
    ensures r == "sun" <==> icon != "sun"
  {
    if icon == "sun" then "moon-fill" else "sun"
  }

  /** Between the two icons the switch goes back and forth. */
  lemma OtherIconToggles(icon: string)
    requires icon == "sun" || icon == "moon-fill"
    ensures OtherIcon(OtherIcon(icon)) == icon
  {
  }

  /** `GenshiCollectionContext`: what a collection page is given. */
  class CollectionContext {
    var title: string
    var baseurl: string
    var apiUrl: string
    var collectionName: string
    var cssThemes: seq<ThemeData>
    var pinnedFilters: seq<FilterData>
    var gitBranch: string
    var gitlabId: int
    var fileBasename: string

    /**
     * `GenshiCollectionContext(base_url, api_url, css_themes, coll, git_branch, gitlab_id)`;
     * `themes` is the dictionary of themes in its order. The version and the JSON of the
     * themes are not part of this model.
     */
    constructor (baseUrl: string, apiUrl: string, themes: seq<(string, string)>, coll: Repository.Collection,
                 git: Option<string>, gitlabId: int, escape: string -> string, quote: string -> string)
      ensures title == coll.title && collectionName == coll.name && baseurl == baseUrl && this.apiUrl == apiUrl
      ensures |cssThemes| == |themes|
      ensures forall i :: 0 <= i < |themes| ==>
        cssThemes[i].name == themes[i].0 && cssThemes[i].otherIcon == (if themes[i].1 == "sun" then "moon-fill" else "sun")
      ensures |pinnedFilters| == |coll.lists.pinnedFilters|
      ensures forall i :: 0 <= i < |pinnedFilters| ==>
        pinnedFilters[i] == FilterData(quote(coll.lists.pinnedFilters[i]), escape(coll.lists.pinnedFilters[i]))
      ensures gitBranch == (if git.Some? then git.value else "") && this.gitlabId == gitlabId
      ensures fileBasename == Repository.FileBasename(coll.name)
    {
      title := coll.title;
      baseurl := baseUrl;
      this.apiUrl := apiUrl;
      collectionName := coll.name;
      var themeList: seq<ThemeData> := [];
      for i := 0 to |themes|
        invariant |themeList| == i
        invariant forall j :: 0 <= j < i ==> themeList[j] == ThemeData(themes[j].0, OtherIcon(themes[j].1))
      {
        var (n, icon) := themes[i];
        themeList := themeList + [ThemeData(n, if icon == "sun" then "moon-fill" else "sun")];
      }
      cssThemes := themeList;
      var filters: seq<FilterData> := [];
      var pinned := coll.lists.pinnedFilters;
      for i := 0 to |pinned|
        invariant |filters| == i
        invariant forall j :: 0 <= j < i ==> filters[j] == FilterData(quote(pinned[j]), escape(pinned[j]))
      {
        filters := filters + [FilterData(quote(pinned[i]), escape(pinned[i]))];
      }
      pinnedFilters := filters;
      gitBranch := if git.Some? then git.value else "";
      this.gitlabId := gitlabId;
      fileBasename := Repository.FileBasename(coll.name);
    }
  }
}
