/** The per-post decisions of the social feed: how a count is abbreviated, which image a post
    shows, whether it is paywalled and locked, where its author link points and which of its
    count fields is displayed. Rendering itself is not modelled. */
module Feed {
  import opened Wrappers
  import opened Js

  // ---------------------------------------------------------------------------------------------
  // fmtCount

  /** `Number(n || 0)` for a count that has already been coerced: `null`, `undefined`, `0` and
      `NaN` are falsy and become 0. */
  function CountValue(n: Option<JsNumber>): (r: JsNumber)
    ensures n.None? ==> r == Finite(0.0)
  {
    if n.None? || n.value.NaN? then Finite(0.0) else n.value
  }

  /** The bucket `fmtCount` chooses: the plain number, thousands with a `k` suffix or millions
      with an `M` suffix, each scaled value shown with `decimals` digits after the point. */
  datatype CountLabel = Plain(value: real) | Thousands(value: real, decimals: nat) | Millions(value: real, decimals: nat)

  function Suffix(c: CountLabel): string
  {
    match c
    case Plain(_) => ""
    case Thousands(_, _) => "k"
    case Millions(_, _) => "M"
  }

  predicate IsWhole(x: real)
  {
    x.Floor as real == x
  }

  /** JavaScript's `x % m`: the remainder of division truncated toward zero. */
  function JsRemainder(x: real, m: real): real
    requires m > 0.0
  {
    var q := x / m;
    var truncated := if q >= 0.0 then q.Floor else -((-q).Floor);
    x - m * truncated as real
  }

  /** For a non-negative `x`, `x % m === 0` holds exactly when `x / m` is a whole number. */
  lemma RemainderZeroIffWhole(x: real, m: real)
    requires x >= 0.0 && m > 0.0
    ensures JsRemainder(x, m) == 0.0 <==> IsWhole(x / m)
  {
    var q := x / m;
    assert q >= 0.0;
    assert q * m == x;
    var f := q.Floor as real;
    if JsRemainder(x, m) == 0.0 {
      assert m * f == x;
      assert m * f == m * q;
    }
  }

  /** `fmtCount`: which bucket, which scaled value and how many decimals; the digits that
      `toFixed` prints are not modelled. */
  function FmtCount(n: Option<JsNumber>): (r: CountLabel)
    ensures var num := CountValue(n);
            && (r.Plain? <==> !IsFinite(num) || num.value < 1000.0)
            && (r.Thousands? <==> IsFinite(num) && 1000.0 <= num.value < 1000000.0)
            && (r.Millions? <==> IsFinite(num) && num.value >= 1000000.0)
            && (r.Plain? ==> r.value == if IsFinite(num) then num.value else 0.0)
            && (r.Thousands? ==> r.value * 1000.0 == num.value)
            && (r.Millions? ==> r.value * 1000000.0 == num.value)
            && (!r.Plain? ==> r.decimals <= 1 && (r.decimals == 0 <==> IsWhole(r.value)))
  {
    var num := CountValue(n);
    if !IsFinite(num) then Plain(0.0)
    else
      var v := num.value;
      if v >= 1000000.0 then
        RemainderZeroIffWhole(v, 1000000.0);
        Millions(v / 1000000.0, if JsRemainder(v, 1000000.0) == 0.0 then 0 else 1)
      else if v >= 1000.0 then
        RemainderZeroIffWhole(v, 1000.0);
        Thousands(v / 1000.0, if JsRemainder(v, 1000.0) == 0.0 then 0 else 1)
      else Plain(v)
  }

  /** A missing count shows as `0`, and so does a non-finite one. */
  lemma FmtCountOfMissing()
    ensures FmtCount(None) == Plain(0.0)
    ensures FmtCount(Some(PositiveInfinity)) == Plain(0.0)
    ensures FmtCount(Some(NaN)) == Plain(0.0)
  {
  }

  /** An exact number of thousands below a million, or of millions, is shown without decimals;
      one more unit than such a number is shown with one. */
  lemma ExactMultiplesHaveNoDecimals(k: int)
    requires k >= 1
    ensures k < 1000 ==> FmtCount(Some(Finite(k as real * 1000.0))) == Thousands(k as real, 0)
    ensures FmtCount(Some(Finite(k as real * 1000000.0))) == Millions(k as real, 0)
    ensures k < 1000 ==> FmtCount(Some(Finite(k as real * 1000.0 + 1.0))).decimals == 1
  {
    var t := k as real * 1000.0 + 1.0;
    if k < 1000 {
      assert FmtCount(Some(Finite(t))).Thousands?;
      var q := t / 1000.0;
      assert q == k as real + 0.001;
      assert q.Floor == k;
    }
  }

  /** A larger count never falls in a smaller bucket. */
  lemma BucketsAreMonotonic(a: real, b: real)
    requires a <= b
    ensures Rank(FmtCount(Some(Finite(a)))) <= Rank(FmtCount(Some(Finite(b))))
  {
  }

  /** The suffix follows the size of a finite count: none below a thousand, `k` below a
      million, `M` from a million on. */
  lemma SuffixBySize(x: real)
    ensures Suffix(FmtCount(Some(Finite(x))))
            == if x >= 1000000.0 then "M" else if x >= 1000.0 then "k" else ""
  {
  }

  function Rank(c: CountLabel): nat
  {
    match c
    case Plain(_) => 0
    case Thousands(_, _) => 1
    case Millions(_, _) => 2
  }

  // ---------------------------------------------------------------------------------------------
  // Fallback chains

  /** `a || b || ... || fallback` over nullable strings: the first truthy one. */
  function FirstTruthy(xs: seq<Option<string>>, fallback: string): (r: string)
    ensures (forall i :: 0 <= i < |xs| ==> !Truthy(xs[i])) ==> r == fallback
    ensures forall i :: 0 <= i < |xs| && Truthy(xs[i]) && (forall j :: 0 <= j < i ==> !Truthy(xs[j]))
                        ==> r == xs[i].value
  {
    if xs == [] then fallback
    else if Truthy(xs[0]) then xs[0].value
    else
      assert forall i :: 1 <= i < |xs| ==> xs[i] == xs[1..][i - 1];
      FirstTruthy(xs[1..], fallback)
  }

  /** `a ?? b ?? ... ?? fallback`: the first value that is neither `null` nor `undefined`. */
  function FirstPresent<T>(xs: seq<Option<T>>, fallback: T): (r: T)
    ensures (forall i :: 0 <= i < |xs| ==> xs[i].None?) ==> r == fallback
    ensures forall i :: 0 <= i < |xs| && xs[i].Some? && (forall j :: 0 <= j < i ==> xs[j].None?)
                        ==> r == xs[i].value
  {
    if xs == [] then fallback
    else if xs[0].Some? then xs[0].value
    else
      assert forall i :: 1 <= i < |xs| ==> xs[i] == xs[1..][i - 1];
      FirstPresent(xs[1..], fallback)
  }

  lemma FirstPresentCons<T>(x: Option<T>, xs: seq<Option<T>>, fallback: T)
    ensures FirstPresent([x] + xs, fallback) == if x.Some? then x.value else FirstPresent(xs, fallback)
  {
    assert ([x] + xs)[1..] == xs;
  }

  /** A four-step `a ?? b ?? c ?? d ?? fallback` chain. */
  lemma FirstPresentOfFour<T>(a: Option<T>, b: Option<T>, c: Option<T>, d: Option<T>, fallback: T)
    ensures FirstPresent([a, b, c, d], fallback)
            == if a.Some? then a.value else if b.Some? then b.value
               else if c.Some? then c.value else if d.Some? then d.value else fallback
  {
    assert [a, b, c, d] == [a] + [b, c, d] && [b, c, d] == [b] + [c, d] && [c, d] == [c] + [d];
    assert [d] == [d] + [];
    FirstPresentCons(a, [b, c, d], fallback);
    FirstPresentCons(b, [c, d], fallback);
    FirstPresentCons(c, [d], fallback);
    FirstPresentCons(d, [], fallback);
  }

  // ---------------------------------------------------------------------------------------------
  // PostCard

  datatype Author = Author(
    username: Option<string>, displayName: Option<string>,
    avatarUrl: Option<string>, avatar: Option<string>)

  datatype Media = Media(url: Option<string>)

  /** The `_count` object some API versions attach to a post. */
  datatype Counts = Counts(
    likes: Option<JsNumber>, like: Option<JsNumber>,
    comments: Option<JsNumber>, comment: Option<JsNumber>)

  /** A post as the feed API delivers it; every field may be missing. When the viewer may not see
      a paywalled post, the API sends no media (and possibly a preview). */
  datatype Post = Post(
    author: Option<Author>,
    media: Option<seq<Media>>,
    preview: Option<Media>,
    imageUrl: Option<string>,
    paywalled: Option<bool>,
    isPaywalled: Option<bool>,
    likeCount: Option<JsNumber>,
    likesCount: Option<JsNumber>,
    commentCount: Option<JsNumber>,
    commentsCount: Option<JsNumber>,
    shareCount: Option<JsNumber>,
    counts: Option<Counts>)

  /** What `PostCard` derives from a post before rendering. */
  datatype PostCardView = PostCardView(
    authorName: string,
    handle: string,
    avatarUrl: string,
    imageUrl: string,
    isPaywalled: bool,
    isLocked: bool,
    authorProfileHref: string,
    likes: CountLabel,
    comments: CountLabel,
    shares: CountLabel)

  /** `post?.media?.[0]?.url`. */
  function FirstMediaUrl(post: Post): Option<string>
  {
    if post.media.Some? && |post.media.value| > 0 then post.media.value[0].url else None
  }

  function PreviewUrl(post: Post): Option<string>
  {
    if post.preview.Some? then post.preview.value.url else None
  }

  /** `post?.media?.length > 0`. */
  predicate HasMedia(post: Post)
  {
    post.media.Some? && |post.media.value| > 0
  }

  function AuthorField(post: Post, field: Author -> Option<string>): Option<string>
  {
    if post.author.Some? then field(post.author.value) else None
  }

  function CountField(post: Post, field: Counts -> Option<JsNumber>): Option<JsNumber>
  {
    if post.counts.Some? then field(post.counts.value) else None
  }

  /** The fields the like count is read from, in order of preference. */
  function LikeCandidates(post: Post): seq<Option<JsNumber>>
  {
    [post.likeCount, post.likesCount,
     CountField(post, (c: Counts) => c.likes), CountField(post, (c: Counts) => c.like)]
  }

  /** The fields the comment count is read from, in order of preference. */
  function CommentCandidates(post: Post): seq<Option<JsNumber>>
  {
    [post.commentCount, post.commentsCount,
     CountField(post, (c: Counts) => c.comments), CountField(post, (c: Counts) => c.comment)]
  }

  /** The derivations at the top of `PostCard`. */
  function PostCard(post: Post): (r: PostCardView)
    ensures r.isPaywalled <==> post.paywalled == Some(true) || post.isPaywalled == Some(true)
    ensures r.isLocked <==> r.isPaywalled && (post.media.None? || post.media.value == [])
    ensures r.imageUrl == FirstTruthy([FirstMediaUrl(post), PreviewUrl(post), post.imageUrl], "")
    ensures r.isLocked ==> r.imageUrl == FirstTruthy([PreviewUrl(post), post.imageUrl], "")
  {
    var username := AuthorField(post, (a: Author) => a.username);
    var displayName := AuthorField(post, (a: Author) => a.displayName);
    var isPaywalled := post.paywalled == Some(true) || post.isPaywalled == Some(true);
    var isLocked := isPaywalled && !HasMedia(post);
    var likeCount := FirstPresent(LikeCandidates(post), Finite(0.0));
    var commentCount := FirstPresent(CommentCandidates(post), Finite(0.0));
    var shareCount := FirstPresent([post.shareCount], Finite(0.0));
    var imageUrl := FirstTruthy([FirstMediaUrl(post), PreviewUrl(post), post.imageUrl], "");
    assert isLocked ==> imageUrl == FirstTruthy([PreviewUrl(post), post.imageUrl], "") by {
      if isLocked {
        assert FirstMediaUrl(post) == None;
        assert [FirstMediaUrl(post), PreviewUrl(post), post.imageUrl][1..]
               == [PreviewUrl(post), post.imageUrl];
      }
    }
    PostCardView(
      FirstTruthy([displayName, username], "Usuario"),
      if Truthy(username) then "@" + username.value else "",
      FirstTruthy([AuthorField(post, (a: Author) => a.avatarUrl),
                   AuthorField(post, (a: Author) => a.avatar)], ""),
      imageUrl,
      isPaywalled,
      isLocked,
      if Truthy(username) then "/perfil/" + username.value else "/inicio",
      FmtCount(Some(likeCount)),
      FmtCount(Some(commentCount)),
      FmtCount(Some(shareCount)))
  }

  /** The image URL falls back from the first media URL to the preview URL, to `imageUrl`, to
      the empty string, taking the first that is non-empty. */
  lemma ImageUrlFallback(post: Post)
    ensures Truthy(FirstMediaUrl(post)) ==> PostCard(post).imageUrl == FirstMediaUrl(post).value
    ensures !Truthy(FirstMediaUrl(post)) && Truthy(PreviewUrl(post)) ==>
              PostCard(post).imageUrl == PreviewUrl(post).value
    ensures !Truthy(FirstMediaUrl(post)) && !Truthy(PreviewUrl(post)) && Truthy(post.imageUrl) ==>
              PostCard(post).imageUrl == post.imageUrl.value
    ensures !Truthy(FirstMediaUrl(post)) && !Truthy(PreviewUrl(post)) && !Truthy(post.imageUrl) ==>
              PostCard(post).imageUrl == ""
  {
    var xs := [FirstMediaUrl(post), PreviewUrl(post), post.imageUrl];
    assert xs[0] == FirstMediaUrl(post) && xs[1] == PreviewUrl(post) && xs[2] == post.imageUrl;
  }

  /** A post that is not paywalled is never locked, and a paywalled post that delivers media is
      not locked either. */
  lemma OnlyPaywalledWithoutMediaIsLocked(post: Post)
    ensures !PostCard(post).isPaywalled ==> !PostCard(post).isLocked
    ensures HasMedia(post) ==> !PostCard(post).isLocked
  {
  }

  /** The profile link and the handle come from the username when there is one. */
  lemma AuthorLinks(post: Post)
    ensures var u := AuthorField(post, (a: Author) => a.username);
            && (Truthy(u) ==> PostCard(post).authorProfileHref == "/perfil/" + u.value
                              && PostCard(post).handle == "@" + u.value)
            && (!Truthy(u) ==> PostCard(post).authorProfileHref == "/inicio"
                               && PostCard(post).handle == "")
  {
  }

  /** The like count falls back through `likeCount`, `likesCount`, `_count.likes` and
      `_count.Like` to 0. */
  lemma LikeCountFallback(post: Post)
    ensures post.likeCount.Some? ==> PostCard(post).likes == FmtCount(post.likeCount)
    ensures post.likeCount.None? && post.likesCount.Some? ==>
              PostCard(post).likes == FmtCount(post.likesCount)
    ensures post.likeCount.None? && post.likesCount.None? && post.counts.Some? ==>
              var c := post.counts.value;
              && (c.likes.Some? ==> PostCard(post).likes == FmtCount(c.likes))
              && (c.likes.None? && c.like.Some? ==> PostCard(post).likes == FmtCount(c.like))
              && (c.likes.None? && c.like.None? ==> PostCard(post).likes == Plain(0.0))
    ensures post.likeCount.None? && post.likesCount.None? && post.counts.None? ==>
              PostCard(post).likes == Plain(0.0)
  {
    var c3, c4 := CountField(post, (c: Counts) => c.likes), CountField(post, (c: Counts) => c.like);
    FirstPresentOfFour(post.likeCount, post.likesCount, c3, c4, Finite(0.0));
  }

  /** The comment count falls back the same way through `commentCount`, `commentsCount`,
      `_count.comments` and `_count.Comment` to 0. */
  lemma CommentCountFallback(post: Post)
    ensures post.commentCount.Some? ==> PostCard(post).comments == FmtCount(post.commentCount)
    ensures post.commentCount.None? && post.commentsCount.Some? ==>
              PostCard(post).comments == FmtCount(post.commentsCount)
    ensures post.commentCount.None? && post.commentsCount.None? && post.counts.Some? ==>
              var c := post.counts.value;
              && (c.comments.Some? ==> PostCard(post).comments == FmtCount(c.comments))
              && (c.comments.None? && c.comment.Some? ==> PostCard(post).comments == FmtCount(c.comment))
              && (c.comments.None? && c.comment.None? ==> PostCard(post).comments == Plain(0.0))
    ensures post.commentCount.None? && post.commentsCount.None? && post.counts.None? ==>
              PostCard(post).comments == Plain(0.0)
  {
    var c3, c4 := CountField(post, (c: Counts) => c.comments), CountField(post, (c: Counts) => c.comment);
    FirstPresentOfFour(post.commentCount, post.commentsCount, c3, c4, Finite(0.0));
  }

  /** The share count is `shareCount`, or 0 when it is missing. */
  lemma ShareCountFallback(post: Post)
    ensures post.shareCount.None? ==> PostCard(post).shares == Plain(0.0)
    ensures post.shareCount.Some? ==> PostCard(post).shares == FmtCount(post.shareCount)
  {
  }

  /** The media frame of a card: none when the image URL is empty; otherwise the image, blurred
      and covered by a "locked" overlay linking to the author's profile exactly when the post
      is locked. */
  datatype ImageFrame = NoImage | Image(src: string, blurred: bool, overlayLink: Option<string>)

  function Frame(view: PostCardView): (r: ImageFrame)
    ensures r.NoImage? <==> view.imageUrl == ""
    ensures r.Image? ==> (r.blurred <==> view.isLocked)
    ensures r.Image? ==> (r.overlayLink.Some? <==> view.isLocked)
  {
    if view.imageUrl == "" then NoImage
    else Image(view.imageUrl, view.isLocked,
               if view.isLocked then Some(view.authorProfileHref) else None)
  }

  /** The frame of every card. A locked post shows its preview URL when it has one, and
      otherwise its `imageUrl`, blurred under an overlay linking to the author's profile; a
      locked post with neither shows no frame at all. A post that is not locked is never
      blurred and never covered, and one whose first media URL is non-empty shows that media. */
  lemma FrameFollowsLock(post: Post)
    ensures var view := PostCard(post);
            view.isLocked && Truthy(PreviewUrl(post)) ==>
              Frame(view) == Image(PreviewUrl(post).value, true, Some(view.authorProfileHref))
    ensures var view := PostCard(post);
            view.isLocked && !Truthy(PreviewUrl(post)) && Truthy(post.imageUrl) ==>
              Frame(view) == Image(post.imageUrl.value, true, Some(view.authorProfileHref))
    ensures var view := PostCard(post);
            view.isLocked && !Truthy(PreviewUrl(post)) && !Truthy(post.imageUrl) ==> Frame(view) == NoImage
    ensures var view := PostCard(post);
            !view.isLocked ==> Frame(view) == NoImage || (!Frame(view).blurred && Frame(view).overlayLink == None)
    ensures Truthy(FirstMediaUrl(post)) ==> Frame(PostCard(post)) == Image(FirstMediaUrl(post).value, false, None)
  {
    ImageUrlFallback(post);
    OnlyPaywalledWithoutMediaIsLocked(post);
  }

  /** A paywalled post whose media were withheld but that carries a preview shows the preview,
      blurred, under the overlay. */
  lemma LockedPostShowsPreview(post: Post)
    requires post.paywalled == Some(true) && post.media == Some([])
    requires post.preview == Some(Media(Some("p.jpg")))
    ensures PostCard(post).isLocked
    ensures Frame(PostCard(post)) == Image("p.jpg", true, Some(PostCard(post).authorProfileHref))
  {
    FrameFollowsLock(post);
  }
}
