/**
 * The route handlers of the comment-management section. Each handler looks
 * at the route parameters, the query string and the site fragment of the
 * path, and ends in exactly one of: a redirect, a change to page 1 of the
 * current listing, or rendering a view (after at most one store dispatch).
 * The handlers are functions from a `Request` to an `Outcome`.
 */
module CommentsController {
  import opened Wrappers
  import JsParseInt

  /** What a route handler sees. `siteFragment` is what the router's
      `getSiteFragment( path )` found in the path (`None` when it found
      none); `params` are the route parameters and `query` the query string
      arguments, each present only when given. */
  datatype Request = Request(
    path: string,
    siteFragment: Option<string>,
    params: map<string, string>,
    query: map<string, string>)

  /** `params.x` or `query.x`: `None` stands for `undefined`. */
  function Arg(args: map<string, string>, key: string): Option<string> {
    if key in args then Some(args[key]) else None
  }

  /** The text JavaScript's `ToString` gives for a possibly absent argument,
      as a template literal or `parseInt` reads it. */
  function JsString(v: Option<string>): string {
    match v
    case Some(s) => s
    case None => "undefined"
  }

  /** JavaScript truthiness of what `getSiteFragment` returns: `false`
      (here `None`) and the empty string are both falsy. */
  predicate HasFragment(fragment: Option<string>) {
    fragment.Some? && fragment.value != ""
  }

  // ---------------------------------------------------------------------------
  // Sanitisers

  const PendingStatus := "pending"
  const UnapprovedStatus := "unapproved"

  /** `mapPendingStatusToUnapproved`: the listing calls pending comments
      "unapproved"; every other status passes through. */
  function MapPendingStatusToUnapproved(status: Option<string>): (r: Option<string>)
    ensures r != Some(PendingStatus)
    ensures r == status || (status == Some(PendingStatus) && r == Some(UnapprovedStatus))
  {
    if status == Some(PendingStatus) then Some(UnapprovedStatus) else status
  }

  lemma {:induction false} MapPendingStatusIdempotent(status: Option<string>)
    ensures MapPendingStatusToUnapproved(MapPendingStatusToUnapproved(status))
         == MapPendingStatusToUnapproved(status)
  {
  }

  /** `sanitizeInt`: `parseInt( number, 10 )` when that is a positive
      integer, else `false` (here `None`). */
  function SanitizeInt(number: Option<string>): (r: Option<int>)
    ensures r.Some? ==> r.value > 0
  {
    match JsParseInt.ParseInt10(JsString(number))
    case Some(n) => if n > 0 then Some(n) else None
    case None => None
  }

  /** Every positive integer written in decimal comes back unchanged. */
  lemma {:induction false} SanitizeIntOfDecimal(n: nat)
    requires n > 0
    ensures SanitizeInt(Some(JsParseInt.DecimalString(n))) == Some(n)
  {
    JsParseInt.ParseIntOfDecimal(n);
  }

  /** Leading white space and text after the digits are ignored, so
      " 12px" gives 12. */
  lemma {:induction false} SanitizeIntOfPaddedDecimal(w: string, n: nat, tail: string)
    requires n > 0
    requires forall i :: 0 <= i < |w| ==> JsParseInt.IsStrWhiteSpaceChar(w[i])
    requires tail == [] || !JsParseInt.IsDecimalDigit(tail[0])
    ensures SanitizeInt(Some(w + JsParseInt.DecimalString(n) + tail)) == Some(n)
  {
    var d := JsParseInt.DecimalString(n);
    assert w + d + tail == w + (d + tail);
    JsParseInt.ParseIntSkipsWhiteSpace(w, d + tail);
    JsParseInt.ParseIntOfDigitsThenRest(d, tail);
  }

  /** Anything whose first character is a minus sign is refused. */
  lemma {:induction false} SanitizeIntRefusesNegative(s: string)
    ensures SanitizeInt(Some("-" + s)) == None
  {
    var t := "-" + s;
    assert t[0] == '-';
    assert JsParseInt.TrimStart(t) == t;
  }

  /** Text that does not start with white space, a sign or a digit is
      refused; so is an absent argument, which reads as "undefined". */
  lemma {:induction false} SanitizeIntRefusesNonNumeric(number: Option<string>)
    requires var s := JsString(number);
      s == [] || (&& !JsParseInt.IsStrWhiteSpaceChar(s[0])
                  && !JsParseInt.IsDecimalDigit(s[0])
                  && s[0] != '-' && s[0] != '+')
    ensures SanitizeInt(number) == None
  {
    var s := JsString(number);
    assert JsParseInt.TrimStart(s) == s;
    assert JsParseInt.DigitPrefix(s) == [];
  }

  /** Zero, however many digits it is written with, is refused. */
  lemma {:induction false} SanitizeIntRefusesZero(zeros: string)
    requires zeros != [] && forall i :: 0 <= i < |zeros| ==> zeros[i] == '0'
    ensures SanitizeInt(Some(zeros)) == None
  {
    JsParseInt.ParseIntOfDigitsThenRest(zeros, []);
    assert zeros + [] == zeros;
    ZerosValue(zeros);
  }

  lemma {:induction false} ZerosValue(zeros: string)
    requires forall i :: 0 <= i < |zeros| ==> zeros[i] == '0'
    ensures JsParseInt.AllDigits(zeros) && JsParseInt.DigitsValue(zeros) == 0
  {
    if zeros != [] {
      ZerosValue(zeros[..|zeros| - 1]);
    }
  }

  /** The actions a comment e-mail link may ask for, by query word. */
  const ValidActions: map<string, string> :=
    map["approve" := "approved", "trash" := "trash", "spam" := "spam", "delete" := "delete"]

  const DeleteAction := "delete"

  /** `toLowerCase` on the ASCII letters. */
  function ToLowerAscii(s: string): (r: string)
    ensures |r| == |s|
    ensures forall i :: 0 <= i < |s| ==> r[i] == LowerChar(s[i])
  {
    seq(|s|, i requires 0 <= i < |s| => LowerChar(s[i]))
  }

  /** `toLowerCase` on one ASCII character. */
  function LowerChar(c: char): (r: char)
    ensures !('A' <= r <= 'Z')
    ensures 'A' <= c <= 'Z' ==> r as int - c as int == 'a' as int - 'A' as int
    ensures !('A' <= c <= 'Z') ==> r == c
  {
    if 'A' <= c <= 'Z' then (c as int + 32) as char else c
  }

  /** `sanitizeQueryAction`: nothing for an absent or empty action, else the
      status its lower-cased form stands for, or nothing when it stands for
      none. */
  function SanitizeQueryAction(action: Option<string>): (r: Option<string>)
    ensures action.None? || action == Some("") ==> r.None?
    ensures r.Some? ==> r.value in ValidActions.Values
    ensures r.Some? ==> (&& ToLowerAscii(action.value) in ValidActions
                         && r.value == ValidActions[ToLowerAscii(action.value)])
    ensures action.Some? && action.value != "" && ToLowerAscii(action.value) in ValidActions ==> r.Some?
  {
    if action.None? || action.value == "" then None
    else
      var key := ToLowerAscii(action.value);
      if key in ValidActions then Some(ValidActions[key]) else None
  }

  /** Lower-casing twice is lower-casing once. */
  lemma {:induction false} ToLowerAsciiIdempotent(s: string)
    ensures ToLowerAscii(ToLowerAscii(s)) == ToLowerAscii(s)
  {
    var once := ToLowerAscii(s);
    forall i | 0 <= i < |s|
      ensures ToLowerAscii(once)[i] == once[i]
    {
      assert !('A' <= once[i] <= 'Z');
    }
  }

  /** Text without ASCII capitals is left as it is. */
  lemma {:induction false} ToLowerAsciiKeepsLowerText(s: string)
    requires forall i :: 0 <= i < |s| ==> !('A' <= s[i] <= 'Z')
    ensures ToLowerAscii(s) == s
  {
    forall i | 0 <= i < |s|
      ensures ToLowerAscii(s)[i] == s[i]
    {
    }
  }

  /** The lookup ignores case: an action and its lower-cased form sanitise
      alike. */
  lemma {:induction false} SanitizeQueryActionIgnoresCase(s: string)
    ensures SanitizeQueryAction(Some(s)) == SanitizeQueryAction(Some(ToLowerAscii(s)))
  {
    ToLowerAsciiIdempotent(s);
  }

  /** Only `approve` is renamed; the other three words are their own status. */
  lemma {:induction false} OnlyApproveIsRenamed(word: string)
    requires word in ValidActions
    ensures ValidActions[word] == word <==> word != "approve"
    ensures SanitizeQueryAction(Some(word)) == Some(ValidActions[word])
  {
    assert forall w | w in ValidActions :: forall i :: 0 <= i < |w| ==> 'a' <= w[i] <= 'z';
    ToLowerAsciiKeepsLowerText(word);
  }

  // ---------------------------------------------------------------------------
  // Handler outcomes

  /** The views a handler renders into the primary area. */
  datatype View =
    | CommentsManagement(page: int, postId: Option<int>, site: string, status: Option<string>)
    | CommentView(action: Option<string>, commentId: int, siteFragment: Option<string>)

  /** The actions a handler dispatches to the store: a delete with a success
      notice, or a status change wrapped with its analytics events. */
  datatype Dispatch =
    | DeleteComment(siteId: int, postId: int, commentId: int)
    | ChangeCommentStatus(siteId: int, postId: int, commentId: int, status: string)

  /** How a handler ends: redirect to a path, go to a page of the listing at
      `path` (scrolling the window to the top), or render after the given
      dispatches. */
  datatype Outcome =
    | Redirect(to: string)
    | ChangePage(path: string, pageNumber: int)
    | Render(dispatched: seq<Dispatch>, view: View)

  const AllComments := "/comments/all"
  const CommentsPrefix := "/comments"

  /** `siteComments`: the comment listing of a site. */
  function SiteComments(req: Request): (r: Outcome)
    ensures !HasFragment(req.siteFragment) ==> r == Redirect(AllComments)
    ensures HasFragment(req.siteFragment) && SanitizeInt(Arg(req.query, "page")).None? ==> r == ChangePage(req.path, 1)
    ensures r.Render? <==> HasFragment(req.siteFragment) && SanitizeInt(Arg(req.query, "page")).Some?
    ensures r.Render? ==> (&& r.dispatched == []
                           && r.view.CommentsManagement?
                           && r.view.postId.None?
                           && r.view.page > 0
                           && r.view.page == SanitizeInt(Arg(req.query, "page")).value
                           && r.view.site == req.siteFragment.value
                           && r.view.status == MapPendingStatusToUnapproved(Arg(req.params, "status")))
  {
    if !HasFragment(req.siteFragment) then Redirect(AllComments)
    else
      var fragment := req.siteFragment.value;
      var status := MapPendingStatusToUnapproved(Arg(req.params, "status"));
      match SanitizeInt(Arg(req.query, "page"))
      case None => ChangePage(req.path, 1)
      case Some(pageNumber) => Render([], CommentsManagement(pageNumber, None, fragment, status))
  }

  /** `postComments`: the comment listing of one post. */
  function PostComments(req: Request): (r: Outcome)
    ensures !HasFragment(req.siteFragment) ==> r == Redirect(AllComments)
    ensures HasFragment(req.siteFragment) && SanitizeInt(Arg(req.params, "post")).None? ==>
      r == Redirect("/comments/" + JsString(Arg(req.params, "status")) + "/" + req.siteFragment.value)
    ensures r.Render? <==> (&& HasFragment(req.siteFragment)
                            && SanitizeInt(Arg(req.params, "post")).Some?
                            && SanitizeInt(Arg(req.query, "page")).Some?)
    ensures r.Render? ==> r.view.CommentsManagement? && r.view.postId == SanitizeInt(Arg(req.params, "post"))
  {
    if !HasFragment(req.siteFragment) then Redirect(AllComments)
    else
      var fragment := req.siteFragment.value;
      var status := MapPendingStatusToUnapproved(Arg(req.params, "status"));
      match SanitizeInt(Arg(req.params, "post"))
      case None => Redirect("/comments/" + JsString(Arg(req.params, "status")) + "/" + fragment)
      case Some(postId) =>
        match SanitizeInt(Arg(req.query, "page"))
        case None => ChangePage(req.path, 1)
        case Some(pageNumber) => Render([], CommentsManagement(pageNumber, Some(postId), fragment, status))
  }

  /** With a valid post id, the post listing decides exactly as the site
      listing does and only adds the post id to the view. */
  lemma {:induction false} PostCommentsExtendsSiteComments(req: Request)
    requires SanitizeInt(Arg(req.params, "post")).Some?
    ensures PostComments(req) == match SiteComments(req)
      case Render(d, v) => Render(d, v.(postId := SanitizeInt(Arg(req.params, "post"))))
      case other => other
  {
  }

  /** The invalid-post redirect keeps the status as written in the route,
      `pending` included, while the listing itself would show it as
      `unapproved`. An empty fragment is falsy and goes to all comments
      instead. */
  lemma {:induction false} PostRedirectKeepsRawStatus(req: Request, fragment: string)
    requires req.siteFragment == Some(fragment)
    requires Arg(req.params, "status") == Some(PendingStatus)
    requires SanitizeInt(Arg(req.params, "post")).None?
    ensures fragment != "" ==> PostComments(req) == Redirect("/comments/" + PendingStatus + "/" + fragment)
    ensures fragment == "" ==> PostComments(req) == Redirect(AllComments)
  {
  }

  /** `redirect`: to all comments of the site in the path, or of all sites
      when the path names none. */
  function RedirectToAllComments(req: Request): (r: Outcome)
    ensures r.Redirect? && AllComments <= r.to
    ensures !HasFragment(req.siteFragment) ==> r.to == AllComments
    ensures HasFragment(req.siteFragment) ==> r.to[|AllComments|..] == "/" + req.siteFragment.value
  {
    if HasFragment(req.siteFragment) then Redirect(AllComments + "/" + req.siteFragment.value)
    else Redirect(AllComments)
  }

  /** `updateCommentStatus` or `deleteComment`, chosen by the sanitised
      action. */
  function ActionDispatch(siteId: int, postId: int, commentId: int, action: string): (d: Dispatch)
    ensures d.DeleteComment? <==> action == DeleteAction
    ensures d.ChangeCommentStatus? ==> d.status == action
    ensures d.siteId == siteId && d.postId == postId && d.commentId == commentId
  {
    if action == DeleteAction then DeleteComment(siteId, postId, commentId)
    else ChangeCommentStatus(siteId, postId, commentId, action)
  }

  /** `comment`: a single comment, possibly acting on it first. */
  function Comment(req: Request, designEnabled: bool): (r: Outcome)
    ensures SanitizeInt(Arg(req.params, "comment")).None? || !designEnabled ==>
      r == RedirectToAllComments(req)
    ensures r.Render? <==> SanitizeInt(Arg(req.params, "comment")).Some? && designEnabled
    ensures r.Render? ==> (&& |r.dispatched| <= 1
                           && r.view == CommentView(SanitizeQueryAction(Arg(req.query, "action")),
                                                    SanitizeInt(Arg(req.params, "comment")).value,
                                                    req.siteFragment))
    ensures r.Render? ==> (r.dispatched != [] <==>
      && SanitizeQueryAction(Arg(req.query, "action")).Some?
      && SanitizeInt(Arg(req.query, "site_id")).Some?
      && SanitizeInt(Arg(req.query, "post_id")).Some?)
    ensures r.Render? && r.dispatched != [] ==>
      r.dispatched == [ActionDispatch(SanitizeInt(Arg(req.query, "site_id")).value,
                                      SanitizeInt(Arg(req.query, "post_id")).value,
                                      SanitizeInt(Arg(req.params, "comment")).value,
                                      SanitizeQueryAction(Arg(req.query, "action")).value)]
  {
    match SanitizeInt(Arg(req.params, "comment"))
    case None => RedirectToAllComments(req)
    case Some(commentId) =>
      if !designEnabled then RedirectToAllComments(req)
      else
        var action := SanitizeQueryAction(Arg(req.query, "action"));
        var siteId := SanitizeInt(Arg(req.query, "site_id"));
        var postId := SanitizeInt(Arg(req.query, "post_id"));
        var dispatched :=
          if action.Some? && siteId.Some? && postId.Some?
          then [ActionDispatch(siteId.value, postId.value, commentId, action.value)]
          else [];
        Render(dispatched, CommentView(action, commentId, req.siteFragment))
  }

  /** A comment link whose action, site and post all sanitise dispatches
      exactly one action for that comment: a delete for `delete`, else a
      status change to the sanitised action. */
  lemma {:induction false} CommentDispatchesValidAction(req: Request)
    requires SanitizeInt(Arg(req.params, "comment")).Some?
    requires SanitizeQueryAction(Arg(req.query, "action")).Some?
    requires SanitizeInt(Arg(req.query, "site_id")).Some?
    requires SanitizeInt(Arg(req.query, "post_id")).Some?
    ensures var action := SanitizeQueryAction(Arg(req.query, "action")).value;
      var r := Comment(req, true);
      r.Render? && |r.dispatched| == 1
      && r.dispatched[0].commentId == SanitizeInt(Arg(req.params, "comment")).value
      && r.dispatched[0].siteId == SanitizeInt(Arg(req.query, "site_id")).value
      && r.dispatched[0].postId == SanitizeInt(Arg(req.query, "post_id")).value
      && (r.dispatched[0].DeleteComment? <==> action == DeleteAction)
      && (r.dispatched[0].ChangeCommentStatus? ==> r.dispatched[0].status == action)
      && action in ValidActions.Values
  {
  }

  // ---------------------------------------------------------------------------
  // Leaving the section

  /** A notice in the store; some notices carry no id. */
  datatype Notice = Notice(noticeId: Option<string>)

  /** What `clearCommentNotices` does, in order. */
  datatype Effect = RemoveNotice(noticeId: string) | Next

  const CommentNoticePrefix := "comment-notice"

  /** lodash `startsWith` on a possibly absent string. */
  function StartsWith(s: Option<string>, prefix: string): (r: bool)
    ensures s.None? ==> (r <==> prefix == [])
    ensures s.Some? ==> (r <==> |prefix| <= |s.value| && s.value[..|prefix|] == prefix)
  {
    prefix <= JsStringOrEmpty(s)
  }

  function JsStringOrEmpty(s: Option<string>): string {
    s.GetOr("")
  }

  /** The ids of the comment notices among `notices`, in store order. */
  function CommentNoticeIds(notices: seq<Notice>): (ids: seq<string>)
    ensures forall id :: id in ids <==> CommentNoticePrefix <= id && Notice(Some(id)) in notices
  {
    if notices == [] then []
    else
      var rest := CommentNoticeIds(notices[1..]);
      if StartsWith(notices[0].noticeId, CommentNoticePrefix)
      then [notices[0].noticeId.value] + rest
      else rest
  }

  function RemoveAll(ids: seq<string>): (effects: seq<Effect>)
    ensures |effects| == |ids|
    ensures forall i :: 0 <= i < |ids| ==> effects[i] == RemoveNotice(ids[i])
  {
    seq(|ids|, i requires 0 <= i < |ids| => RemoveNotice(ids[i]))
  }

  /** Removing the notices of two lists of ids, one after the other, is
      removing those of the joined list. */
  lemma {:induction false} RemoveAllAppend(a: seq<string>, b: seq<string>)
    ensures RemoveAll(a + b) == RemoveAll(a) + RemoveAll(b)
  {
    var l, r := RemoveAll(a + b), RemoveAll(a) + RemoveAll(b);
    forall i | 0 <= i < |l|
      ensures l[i] == r[i]
    {
      if i < |a| {
        assert (a + b)[i] == a[i];
      } else {
        assert (a + b)[i] == b[i - |a|];
      }
    }
  }

  /** `clearCommentNotices`: on the way out of the comments section remove
      every comment notice, then always pass control on. */
  function ClearCommentNotices(currentPath: string, notices: seq<Notice>): (effects: seq<Effect>)
    ensures effects != [] && effects[|effects| - 1] == Next
    ensures forall i :: 0 <= i < |effects| - 1 ==> effects[i].RemoveNotice?
    ensures CommentsPrefix <= currentPath ==> effects == [Next]
    ensures !(CommentsPrefix <= currentPath) ==>
      forall id :: RemoveNotice(id) in effects <==> CommentNoticePrefix <= id && Notice(Some(id)) in notices
  {
    var removals := if CommentsPrefix <= currentPath then [] else RemoveAll(CommentNoticeIds(notices));
    assert forall id :: RemoveNotice(id) in removals <==> id in CommentNoticeIds(notices) && !(CommentsPrefix <= currentPath) by {
      forall id | RemoveNotice(id) in removals ensures id in CommentNoticeIds(notices) {
        var i :| 0 <= i < |removals| && removals[i] == RemoveNotice(id);
      }
    }
    removals + [Next]
  }

  /** The ids are collected notice by notice: those of a joined list are
      those of the first part, then those of the second. */
  lemma {:induction false} CommentNoticeIdsAppend(a: seq<Notice>, b: seq<Notice>)
    ensures CommentNoticeIds(a + b) == CommentNoticeIds(a) + CommentNoticeIds(b)
  {
    if a == [] {
      assert a + b == b;
    } else {
      assert (a + b)[0] == a[0] && (a + b)[1..] == a[1..] + b;
      CommentNoticeIdsAppend(a[1..], b);
    }
  }

  /** Outside the comments section a single notice is removed iff its id
      starts with "comment-notice", and control then passes on. */
  lemma {:induction false} ClearOneNotice(currentPath: string, n: Notice)
    requires !(CommentsPrefix <= currentPath)
    ensures ClearCommentNotices(currentPath, [n])
         == (if StartsWith(n.noticeId, CommentNoticePrefix) then [RemoveNotice(n.noticeId.value), Next] else [Next])
  {
    var one := [n];
    assert one[0] == n && one[1..] == [];
    assert CommentNoticeIds(one[1..]) == [];
    var ids := CommentNoticeIds(one);
    if StartsWith(n.noticeId, CommentNoticePrefix) {
      assert ids == [n.noticeId.value];
      assert RemoveAll(ids) == [RemoveNotice(n.noticeId.value)];
    } else {
      assert ids == [];
    }
  }

  /** Outside the comments section the removals follow store order: the
      notices of a first part of the store are removed before those of the
      rest. With ClearOneNotice this fixes every effect and its position. */
  lemma {:induction false} ClearCommentNoticesInStoreOrder(currentPath: string, a: seq<Notice>, b: seq<Notice>)
    requires !(CommentsPrefix <= currentPath)
    ensures ClearCommentNotices(currentPath, a + b)
         == RemoveAll(CommentNoticeIds(a)) + ClearCommentNotices(currentPath, b)
  {
    CommentNoticeIdsAppend(a, b);
    RemoveAllAppend(CommentNoticeIds(a), CommentNoticeIds(b));
    var ra, rb := RemoveAll(CommentNoticeIds(a)), RemoveAll(CommentNoticeIds(b));
    assert (ra + rb) + [Next] == ra + (rb + [Next]);
  }

  /** `next` runs exactly once, whatever the path and the notices. */
  lemma {:induction false} NextCalledOnce(currentPath: string, notices: seq<Notice>)
    ensures var effects := ClearCommentNotices(currentPath, notices);
      forall i :: 0 <= i < |effects| && effects[i] == Next ==> i == |effects| - 1
  {
  }

  /** A redirect that stays inside the comments section and, arriving
      there, clears no notice. */
  ghost predicate KeepsNotices(r: Outcome, notices: seq<Notice>) {
    r.Redirect? ==> CommentsPrefix <= r.to && ClearCommentNotices(r.to, notices) == [Next]
  }

  /** Every redirect target of the four handlers lies inside the comments
      section, so arriving there clears no notice. */
  lemma {:induction false} RedirectsKeepNotices(req: Request, designEnabled: bool, notices: seq<Notice>)
    ensures KeepsNotices(SiteComments(req), notices)
    ensures KeepsNotices(PostComments(req), notices)
    ensures KeepsNotices(Comment(req, designEnabled), notices)
    ensures KeepsNotices(RedirectToAllComments(req), notices)
  {
    assert CommentsPrefix <= AllComments;
    var all := RedirectToAllComments(req);
    assert AllComments <= all.to;
    InsideKeepsNotices(all.to, notices);
    InsideKeepsNotices(AllComments, notices);
    var post := PostComments(req);
    if post.Redirect? && post != Redirect(AllComments) {
      PostRedirectInside(JsString(Arg(req.params, "status")), req.siteFragment.value);
      InsideKeepsNotices(post.to, notices);
    }
  }

  lemma {:induction false} PostRedirectInside(status: string, fragment: string)
    ensures CommentsPrefix <= "/comments/" + status + "/" + fragment
  {
    var t := "/comments/" + status + "/" + fragment;
    assert t[..|CommentsPrefix|] == CommentsPrefix;
  }

  lemma {:induction false} InsideKeepsNotices(to: string, notices: seq<Notice>)
    requires CommentsPrefix <= to
    ensures ClearCommentNotices(to, notices) == [Next]
  {
  }
}
