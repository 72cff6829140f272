/**
 * Deleting a bookmark from its card and undoing the deletion (pagemarks/js/delete.js).
 * A card is either live (coloured border, link enabled, toolbox icons shown, undo link
 * hidden) or greyed out as deleted (theme border, link disabled, icons hidden, undo
 * link shown). Deleting fetches the record's blob, keeps it on the card and removes the
 * record; undoing writes the kept blob back under the same id. The backend is
 * abstract: every call is recorded in `calls` and its answer is a parameter.
 */
module DeleteCard {

  import opened Wrappers
  import JsValues
  import GitLab

  /** A backend call made by the card: fetch, delete or re-create one record. */
  datatype Call =
    | FetchCall(id: string)
    | DeleteCall(id: string, url: Option<string>)
    | CreateCall(id: string, url: Option<string>, content: Option<string>)

  /**
   * What the card shows. `border` is the card's one `border-*` class, `deleted` its
   * `pm-deleted` class; `undoHidden` and `iconsHidden` are the `d-none` class of the undo
   * link and of the toolbox icons; `linkDisabled` is the `disabled` class of the card's
   * link. An attribute is `None` when the element does not carry it.
   */
  datatype CardState = CardState(
    border: string,
    deleted: bool,
    undoHidden: bool,
    iconsHidden: bool,
    linkDisabled: bool,
    href: Option<string>,
    hrefSave: Option<string>,
    onclick: Option<string>,
    onclickSave: Option<string>,
    original64: Option<string>,
    calls: seq<Call>)

  /**
   * How the page is set up: demo mode, the theme, and what `hasWriteAccess` looks at:
   * the Git branch of the page's metadata, the GitLab project id, the page's
   * `pm-token-present` class and the token in local storage.
   */
  datatype Env = Env(demo: bool, dark: bool, gitBranch: JsValues.JsValue, gitlabId: int, tokenPresent: bool,
                     token: Option<string>)

  /** `git_write_access()` (delete.js lines 22-28). */
  predicate WriteAccess(env: Env) {
    GitLab.HasWriteAccess(env.gitBranch, env.demo, env.gitlabId, env.tokenPresent, env.token)
  }

  const PrimaryBorder := "border-primary"

  /** `'border-' + getThemeType()`. */
  function ThemeBorder(dark: bool): (r: string)
    ensures r == "border-dark" || r == "border-light"
    ensures r != PrimaryBorder
  {
    if dark then "border-dark" else "border-light"
  }

  /**
   * The attribute `renameAttribute(elem, from, to)` leaves under the new name: jQuery's
   * `attr(to, undefined)` sets nothing, so an absent `from` keeps whatever `to` held.
   */
  function RenamedTo(from: Option<string>, to: Option<string>): Option<string>
  {
    if from.Some? then from else to
  }

  /** `toggleUndoLink(id, isDeleted)`: the undo link is shown exactly on a deleted card. */
  function UndoToggled(s: CardState, isDeleted: bool): CardState
  {
    s.(undoHidden := !isDeleted)
  }

  /** `toggleToolboxIcons(id, isDeleted)`: the toolbox icons are hidden exactly on a deleted card. */
  function IconsToggled(s: CardState, isDeleted: bool): CardState
  {
    s.(iconsHidden := isDeleted)
  }

  /** `markCardDeleted(id, isDeleted)`, with the delayed restore of `onclick` taken as immediate. */
  function Marked(s: CardState, isDeleted: bool, dark: bool): CardState
  {
    if isDeleted then
      s.(border := ThemeBorder(dark), deleted := true, iconsHidden := true, linkDisabled := true,
         hrefSave := RenamedTo(s.href, s.hrefSave), href := None,
         onclickSave := RenamedTo(s.onclick, s.onclickSave), onclick := None)
    else
      s.(border := PrimaryBorder, deleted := false, undoHidden := true, linkDisabled := false,
         href := RenamedTo(s.hrefSave, s.href), hrefSave := None,
         onclick := RenamedTo(s.onclickSave, s.onclick), onclickSave := None)
  }

  /** `errorHandler(id, isDeleted)`: a failed call puts the card back the way it was before the attempt. */
  function Errored(s: CardState, isDeleted: bool, dark: bool): CardState
  {
    IconsToggled(UndoToggled(Marked(s, !isDeleted, dark), !isDeleted), !isDeleted)
  }

  /** `get_bookmark_url(id)`: the link's `href` when it has one, else its `href-save`. */
  function BookmarkUrl(s: CardState): Option<string>
  {
    if s.href.Some? then s.href else s.hrefSave
  }

  /** A link never carries both `href` and `href-save`. */
  predicate Consistent(s: CardState)
  {
    s.href.None? || s.hrefSave.None?
  }

  /** The look of a card that is not deleted. */
  predicate LiveLook(s: CardState)
  {
    && s.border == PrimaryBorder && !s.deleted && s.undoHidden && !s.iconsHidden && !s.linkDisabled
    && s.hrefSave.None? && s.onclickSave.None?
  }

  /** The look of a card that is deleted, undo link shown. */
  predicate DeletedLook(s: CardState, dark: bool)
  {
    && s.border == ThemeBorder(dark) && s.deleted && !s.undoHidden && s.iconsHidden && s.linkDisabled
    && s.href.None? && s.onclick.None?
  }

  function Requested(s: CardState, call: Call): CardState
  {
    s.(calls := s.calls + [call])
  }

  /**
   * How a backend call ends for the card (`performCall`, gitlab.js lines 59-77): its
   * success continuation runs with the answer, its error continuation runs, or the
   * `done` handler throws before either runs (`GitLab.Answer.Raised`: an unexpected
   * status with a `null` response, or a `null` response to a successful fetch).
   */
  datatype CallEnd<T> = Answered(value: T) | ErrorCalled | Threw

  /**
   * `deleteBookmark(id)` with the answers of the backend: `fetch` ends with the blob the
   * fetch returns, and `del` is how the delete ends. When a call throws, no continuation
   * runs and the card keeps the look it had when the call went out. The second component
   * is the return value: `Some(false)`, or `None` for JavaScript's `undefined`.
   */
  function DeleteOf(s: CardState, id: string, env: Env, fetch: CallEnd<string>, del: CallEnd<()>): (r: (CardState, Option<bool>))
    ensures r.1 != Some(true)
    ensures r.1 == Some(false) <==> env.demo || !WriteAccess(env)
    ensures r.1 == Some(false) ==> r.0.calls == s.calls
    ensures r.1.None? ==> |r.0.calls| > |s.calls| && r.0.calls[|s.calls|] == FetchCall(id)
  {
    if env.demo then
      (UndoToggled(Marked(s, true, env.dark), true), Some(false))
    else if !WriteAccess(env) then
      (s, Some(false))
    else
      var m := Requested(Marked(s, true, env.dark), FetchCall(id));
      match fetch
      case ErrorCalled => (Errored(m, true, env.dark), None)
      case Threw => (m, None)
      case Answered(blob) =>
        var kept := m.(original64 := Some(blob));
        var d := Requested(kept, DeleteCall(id, BookmarkUrl(kept)));
        match del
        case Answered(_) => (UndoToggled(d, true), None)
        case ErrorCalled => (Errored(d, true, env.dark), None)
        case Threw => (d, None)
  }

  /** `undoDeleteBookmark(id)`; `create` is how re-creating the record ends. */
  function UndoOf(s: CardState, id: string, env: Env, create: CallEnd<()>): (r: (CardState, Option<bool>))
    ensures r.1 != Some(true)
    ensures r.1 == Some(false) <==> env.demo || !WriteAccess(env)
    ensures r.1 == Some(false) ==> r.0.calls == s.calls
    ensures r.1.None? ==> |r.0.calls| == |s.calls| + 1 && r.0.calls[..|s.calls|] == s.calls
    ensures r.1.None? ==>
      r.0.calls[|s.calls|].CreateCall? && r.0.calls[|s.calls|].id == id && r.0.calls[|s.calls|].content == s.original64
  {
    if env.demo then
      (IconsToggled(Marked(s, false, env.dark), false), Some(false))
    else if !WriteAccess(env) then
      (s, Some(false))
    else
      var m := Marked(s, false, env.dark);
      var c := Requested(m, CreateCall(id, BookmarkUrl(m), s.original64));
      match create
      case Answered(_) => (IconsToggled(c, false), None)
      case ErrorCalled => (Errored(c, false, env.dark), None)
      case Threw => (c, None)
  }

  // ---------------------------------------------------------------------------
  // The card
  // ---------------------------------------------------------------------------

  class Card {
    const id: string
    var border: string
    var deleted: bool
    var undoHidden: bool
    var iconsHidden: bool
    var linkDisabled: bool
    var href: Option<string>
    var hrefSave: Option<string>
    var onclick: Option<string>
    var onclickSave: Option<string>
    var original64: Option<string>
    var calls: seq<Call>

    function State(): CardState
      reads this
    {
      CardState(border, deleted, undoHidden, iconsHidden, linkDisabled, href, hrefSave,
                onclick, onclickSave, original64, calls)
    }

    /** A live card linking to `url`, its toolbox wired to `onclick`. */
    constructor (id: string, url: string, onclick: string)
      ensures this.id == id
      ensures LiveLook(State()) && State().href == Some(url) && State().onclick == Some(onclick)
      ensures State().original64.None? && State().calls == []
    {
      this.id := id;
      border := PrimaryBorder;
      deleted := false;
      undoHidden := true;
      iconsHidden := false;
      linkDisabled := false;
      href := Some(url);
      hrefSave := None;
      this.onclick := Some(onclick);
      onclickSave := None;
      original64 := None;
      calls := [];
    }

    method ToggleUndoLink(isDeleted: bool)
      modifies this
      ensures State() == UndoToggled(old(State()), isDeleted)
    {
      if isDeleted {
        undoHidden := false;
      } else {
        undoHidden := true;
      }
    }

    method ToggleToolboxIcons(isDeleted: bool)
      modifies this
      ensures State() == IconsToggled(old(State()), isDeleted)
    {
      if isDeleted {
        iconsHidden := true;
      } else {
        iconsHidden := false;
      }
    }

    method MarkCardDeleted(isDeleted: bool, dark: bool)
      modifies this
      ensures State() == Marked(old(State()), isDeleted, dark)
    {
      if isDeleted {
        border := ThemeBorder(dark);
        deleted := true;
      } else {
        border := PrimaryBorder;
        deleted := false;
      }
      if !isDeleted {
        ToggleUndoLink(false);
      } else {
        ToggleToolboxIcons(true);
      }
      if isDeleted {
        linkDisabled := true;
        var oldVal := href;
        if oldVal.Some? {
          hrefSave := oldVal;
        }
        href := None;
      } else {
        linkDisabled := false;
        var oldVal := hrefSave;
        if oldVal.Some? {
          href := oldVal;
        }
        hrefSave := None;
      }
      if isDeleted {
        var oldVal := onclick;
        if oldVal.Some? {
          onclickSave := oldVal;
        }
        onclick := None;
      } else {
        var oldVal := onclickSave;
        if oldVal.Some? {
          onclick := oldVal;
        }
        onclickSave := None;
      }
    }

    method ErrorHandler(isDeleted: bool, dark: bool)
      modifies this
      ensures State() == Errored(old(State()), isDeleted, dark)
    {
      MarkCardDeleted(!isDeleted, dark);
      ToggleUndoLink(!isDeleted);
      ToggleToolboxIcons(!isDeleted);
    }

    method GetBookmarkUrl() returns (url: Option<string>)
      ensures url == BookmarkUrl(State())
      ensures url.Some? <==> State().href.Some? || State().hrefSave.Some?
    {
      if href.Some? {
        return href;
      }
      return hrefSave;
    }

    method Request(call: Call)
      modifies this
      ensures State() == Requested(old(State()), call)
    {
      calls := calls + [call];
    }

    method DeleteBookmark(env: Env, fetch: CallEnd<string>, del: CallEnd<()>) returns (r: Option<bool>)
      modifies this
      ensures (State(), r) == DeleteOf(old(State()), id, env, fetch, del)
    {
      if env.demo {
        MarkCardDeleted(true, env.dark);
        ToggleUndoLink(true);
        return Some(false);
      }
      if !WriteAccess(env) {
        return Some(false);
      }
      MarkCardDeleted(true, env.dark);
      Request(FetchCall(id));
      if fetch.ErrorCalled? {
        ErrorHandler(true, env.dark);
        return None;
      } else if fetch.Threw? {
        return None;
      }
      original64 := Some(fetch.value);
      var url := GetBookmarkUrl();
      Request(DeleteCall(id, url));
      if del.Answered? {
        ToggleUndoLink(true);
      } else if del.ErrorCalled? {
        ErrorHandler(true, env.dark);
      }
      return None;
    }

    method UndoDeleteBookmark(env: Env, create: CallEnd<()>) returns (r: Option<bool>)
      modifies this
      ensures (State(), r) == UndoOf(old(State()), id, env, create)
    {
      if env.demo {
        MarkCardDeleted(false, env.dark);
        ToggleToolboxIcons(false);
        return Some(false);
      }
      if !WriteAccess(env) {
        return Some(false);
      }
      MarkCardDeleted(false, env.dark);
      var url := GetBookmarkUrl();
      Request(CreateCall(id, url, original64));
      if create.Answered? {
        ToggleToolboxIcons(false);
      } else if create.ErrorCalled? {
        ErrorHandler(false, env.dark);
      }
      return None;
    }
  }

  // ---------------------------------------------------------------------------
  // What the state machine guarantees
  // ---------------------------------------------------------------------------

  /**
   * Marking swaps `href` and `href-save` (and `onclick` and `onclick-save`), so the
   * bookmark's URL is found in either state; marking twice is marking once.
   */
  lemma MarkKeepsUrl(s: CardState, isDeleted: bool, dark: bool)
    requires Consistent(s)
    ensures var m := Marked(s, isDeleted, dark);
      && BookmarkUrl(m) == BookmarkUrl(s) && Consistent(m)
      && (isDeleted ==> m.href.None? && m.hrefSave == BookmarkUrl(s))
      && (!isDeleted ==> m.hrefSave.None? && m.href == BookmarkUrl(s))
      && Marked(m, isDeleted, dark) == m
  {
  }

  /** In demo mode no backend call is made: deleting only greys the card and shows the undo link. */
  lemma DemoDelete(s: CardState, id: string, env: Env, fetch: CallEnd<string>, del: CallEnd<()>)
    requires env.demo
    ensures var (t, r) := DeleteOf(s, id, env, fetch, del);
      && r == Some(false) && t.calls == s.calls && t.original64 == s.original64
      && DeletedLook(t, env.dark) && BookmarkUrl(t) == BookmarkUrl(s)
  {
  }

  /** In demo mode undoing only restores the card and its toolbox icons. */
  lemma DemoUndo(s: CardState, id: string, env: Env, create: CallEnd<()>)
    requires env.demo
    ensures var (t, r) := UndoOf(s, id, env, create);
      r == Some(false) && t.calls == s.calls && LiveLook(t)
  {
  }

  /** Without write access, deleting and undoing leave the card as it is and return `false`. */
  lemma NoWriteAccess(s: CardState, id: string, env: Env, fetch: CallEnd<string>, del: CallEnd<()>, create: CallEnd<()>)
    requires !env.demo && !WriteAccess(env)
    ensures DeleteOf(s, id, env, fetch, del) == (s, Some(false))
    ensures UndoOf(s, id, env, create) == (s, Some(false))
  {
  }

  /**
   * Deleting fetches first, keeps the fetched blob on the card, and only then deletes
   * the record under the card's URL; a failed fetch deletes nothing.
   */
  lemma DeleteCalls(s: CardState, id: string, env: Env, fetch: CallEnd<string>, del: CallEnd<()>)
    requires !env.demo && WriteAccess(env)
    ensures var (t, r) := DeleteOf(s, id, env, fetch, del);
      && r.None?
      && (!fetch.Answered? ==> t.calls == s.calls + [FetchCall(id)] && t.original64 == s.original64)
      && (fetch.Answered? ==>
            t.calls == s.calls + [FetchCall(id), DeleteCall(id, BookmarkUrl(s))] && t.original64 == Some(fetch.value))
  {
  }

  /**
   * A successful delete leaves the card greyed out with the undo link shown; a failed
   * fetch or delete gives back a live card whose link carries the bookmark's URL. A call
   * that throws leaves the card greyed out, its undo link as it was before and its
   * toolbox icons hidden, so it can be neither used nor restored.
   */
  lemma DeleteOutcome(s: CardState, id: string, env: Env, fetch: CallEnd<string>, del: CallEnd<()>)
    requires !env.demo && WriteAccess(env)
    ensures var (t, _) := DeleteOf(s, id, env, fetch, del);
      && (fetch.Answered? && del.Answered? ==> DeletedLook(t, env.dark) && t.hrefSave == BookmarkUrl(s))
      && (fetch.ErrorCalled? || (fetch.Answered? && del.ErrorCalled?) ==> LiveLook(t) && t.href == BookmarkUrl(s))
      && (fetch.Threw? || (fetch.Answered? && del.Threw?) ==>
            && t.border == ThemeBorder(env.dark) && t.deleted && t.linkDisabled && t.iconsHidden
            && t.undoHidden == s.undoHidden && t.href.None? && t.hrefSave == BookmarkUrl(s))
  {
  }

  /**
   * Undoing re-creates the record under the same id from exactly the blob kept on the
   * card; success shows the toolbox icons of a live card, failure greys the card again,
   * and a create that throws leaves a live link with the toolbox icons still hidden.
   */
  lemma UndoOutcome(s: CardState, id: string, env: Env, create: CallEnd<()>)
    requires !env.demo && WriteAccess(env) && Consistent(s)
    ensures var (t, r) := UndoOf(s, id, env, create);
      && r.None?
      && t.calls == s.calls + [CreateCall(id, BookmarkUrl(s), s.original64)]
      && t.original64 == s.original64
      && (create.Answered? ==> LiveLook(t) && t.href == BookmarkUrl(s))
      && (create.ErrorCalled? ==> DeletedLook(t, env.dark) && t.hrefSave == BookmarkUrl(s))
      && (create.Threw? ==>
            && t.border == PrimaryBorder && !t.deleted && !t.linkDisabled && t.undoHidden
            && t.iconsHidden == s.iconsHidden && t.href == BookmarkUrl(s))
  {
  }

  /**
   * Deleting a live card and then undoing, every call succeeding, gives back the same
   * card: the only traces are the kept blob and the three calls, the last of which
   * writes back exactly the fetched blob.
   */
  lemma DeleteThenUndo(s: CardState, id: string, env: Env, blob: string)
    requires !env.demo && WriteAccess(env) && LiveLook(s)
    ensures var (t, _) := DeleteOf(s, id, env, Answered(blob), Answered(()));
      var (u, _) := UndoOf(t, id, env, Answered(()));
      u == s.(original64 := Some(blob),
              calls := s.calls + [FetchCall(id), DeleteCall(id, s.href), CreateCall(id, s.href, Some(blob))])
  {
  }

  /**
   * No backend call goes out without the write access `hasWriteAccess` grants
   * (gitlab.js lines 27-34): deleting or undoing calls the server only outside demo
   * mode, on a page with a Git branch, a project id and the token flag, and with a
   * token stored.
   */
  lemma CallsNeedAccess(s: CardState, id: string, env: Env, fetch: CallEnd<string>, del: CallEnd<()>, create: CallEnd<()>)
    ensures DeleteOf(s, id, env, fetch, del).0.calls != s.calls ==>
      !env.demo && env.gitBranch.Str? && env.gitlabId > 0 && env.tokenPresent && env.token.Some?
    ensures UndoOf(s, id, env, create).0.calls != s.calls ==>
      !env.demo && env.gitBranch.Str? && env.gitlabId > 0 && env.tokenPresent && env.token.Some?
  {
  }
}
