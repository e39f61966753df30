# UZEED client core in Dafny

This project models three pieces of decision logic from the UZEED platform and proves
properties about them.

- **Discovery API** (`apps/api/src/client/routes.ts`), modules `Discovery` and
  `DiscoveryProperties`:
  - `parseNumber` on query parameters;
  - the `reviewMap` loop that folds professional reviews into `{ total, count }` entries;
  - the projection of each professional or establishment with an optional distance and an
    optional mean rating;
  - the permissive `rangeKm` filter, and the `minRating` filter, which only the
    establishments list applies;
  - the detail lookups answering `NOT_FOUND`;
  - the star validation of a new establishment review.
- **Favorites** (same file), module `Favorites`: a table keyed by the pair (user,
  professional), with a keyed upsert, a keyed delete and a per-user listing. A pure
  specification sits beside a `FavoriteStore` class whose methods change the table.
- **Feed cards** (`apps/web/app/feed/FeedClient.tsx`), module `Feed`:
  - the bucket `fmtCount` chooses: plain, `k` or `M`, with 0 or 1 decimals;
  - the derivations at the top of `PostCard`: author name, handle, avatar, image URL,
    paywalled and locked flags, profile link, and the like/comment/share count fallbacks;
  - the image frame: blurred under a "locked" overlay.
- **Post creation dialog** (`apps/web/components/CreatePostModal.tsx`), module `CreatePost`:
  - the per-file acceptance test: the 100 MiB limit and the MIME rules of each mode;
  - the preview tiles;
  - the `trim()`-based defaults for the title and body;
  - a `CreatePostModal` class whose fields are the component's state and whose methods are
    `handleFiles`, the mode buttons, `submit`, `xhr.onload` and `xhr.onerror`. Every method
    keeps the invariant `Valid()`: the previews are the previews of the current selection,
    and a selection is never empty and was accepted in the current mode.

Supporting modules:
- `Wrappers`: `Option`, `Result`, `Map.get`.
- `Js`: JavaScript numbers after `Number(...)`, and truthiness of nullable strings.
- `Sequences`: `filter`, `map`, `reduce` and a first-match lookup, with their order and
  membership facts.

Database queries are modelled as the in-memory sequences they return, in that order. The
haversine distance is a parameter of type `(real, real, real, real) -> real`. Finite
JavaScript numbers are exact reals.

The model follows the code:
- `isPaywalled` and `isLocked` are derived on the client from the post's own flags and media.
- The blur and the overlay are drawn only when the image URL is non-empty. They sit inside
  `{imageUrl && ...}`, so `Frame` says "blurred iff locked" only for a card that shows an
  image.
- No list is sorted: the results keep the order of the query.

## Model

| member | source | states |
|---|---|---|
| Discovery.MeanRating | apps/api/src/client/routes.ts:105-108 | `null` exactly when there are no reviews; otherwise a mean that, multiplied by the number of reviews, gives the score total |
| Discovery.MeanRatingBounds | apps/api/src/client/routes.ts:197-200 | when every score lies in [lo, hi], the mean exists and lies in [lo, hi] |
| Discovery.StatsOf | apps/api/src/client/routes.ts:57-64 | a professional has an entry exactly when it has reviews; the count is the number of its reviews (never 0) and the total is the sum of their hearts |
| Discovery.SummarySnoc | apps/api/src/client/routes.ts:60-62 | one more review adds its hearts and one to the summary, starting from `{0, 0}` when there was none |
| Discovery.StatsOfSnoc | apps/api/src/client/routes.ts:59-63 | one more review changes only the entry of its own professional: that entry, `{0, 0}` when missing, gains the review's hearts and one more review |
| Discovery.EntryStep | apps/api/src/client/routes.ts:59-63 | after one loop step, each entry equals the stats of the reviews seen so far plus the new review |
| Discovery.ReviewMapStep | apps/api/src/client/routes.ts:58-64 | one loop iteration keeps the loop invariant: the map holds the stats of the reviews already folded in |
| Discovery.BuildReviewMap | apps/api/src/client/routes.ts:57-64 | after the loop every id maps to its count and hearts total, and ids without reviews are absent |
| Discovery.StatsRating | apps/api/src/client/routes.ts:77 | `null` exactly when there are no stats; otherwise a rating that, multiplied by the count, gives the total |
| Discovery.ProjectProfessionals | apps/api/src/client/routes.ts:66-86 | one result per listed professional, in order and with the same id; its rating is `null` exactly when it has no reviews and is otherwise the mean hearts of its reviews; its distance is present exactly when the query lat and lng and its coordinates are all known, and is then the haversine of the query point and the professional's coordinates, in that order |
| Discovery.ListProfessionals | apps/api/src/client/routes.ts:31-89 | the handler (queries, `reviewMap` loop, projection, range filter) returns the response the specification function defines |
| Discovery.ProfessionalDetailOf | apps/api/src/client/routes.ts:93-108 | `NOT_FOUND` exactly when no professional has the id; otherwise a detail with that id, whose rating is `null` exactly when it has no reviews and otherwise the mean hearts of its reviews |
| Discovery.ProjectEstablishments | apps/api/src/client/routes.ts:195-217 | one result per establishment, in order and with the same id; its rating is `null` exactly when it has no reviews and otherwise the mean stars of its reviews; its distance is present exactly when the query lat and lng and its coordinates are all known, and is then the haversine of the query point and the establishment's coordinates, in that order |
| Discovery.EstablishmentDetailOf | apps/api/src/client/routes.ts:224-236 | `NOT_FOUND` exactly when no establishment has the id; otherwise a detail with that id whose rating is the mean stars of an establishment with that id |
| Discovery.ValidateStars | apps/api/src/client/routes.ts:254-255 | accepted exactly when the value is finite and in [1, 5], and then that value; otherwise `INVALID_RATING` |
| DiscoveryProperties.ProfessionalsKeptIff | apps/api/src/client/routes.ts:87 | a projected professional is in the response exactly when the radius is `null`, or its distance is `null`, or its distance is at most the radius; no rating filter applies |
| DiscoveryProperties.ProfessionalsOrderPreserved | apps/api/src/client/routes.ts:66-87 | the response ids are an order-preserving subsequence of the user ids |
| DiscoveryProperties.ProfessionalsMatchQuery | apps/api/src/client/routes.ts:39-45 | every response entry belongs to a professional matching every given criterion |
| DiscoveryProperties.UnknownDistanceAlwaysListed | apps/api/src/client/routes.ts:87 | a listed professional whose distance cannot be computed is in the response whatever the radius |
| DiscoveryProperties.ListAndDetailRatingsAgree | apps/api/src/client/routes.ts:52-77 | every listed professional has a detail page whose rating equals its rating in the list |
| DiscoveryProperties.ListAndDetailNamesAgree | apps/api/src/client/routes.ts:75-113 | with unique user ids, a listed professional shows the same name in the list and on its detail page: `displayName` when non-empty, else `username` |
| DiscoveryProperties.DetailDescriptionFallsBackToBio | apps/api/src/client/routes.ts:93-119 | with unique user ids, a professional's detail page has the description `serviceDescription` when that is non-empty, and `bio` otherwise |
| DiscoveryProperties.ListedProfessionalsIff | apps/api/src/client/routes.ts:39-45 | the list query keeps, in order, exactly the professionals matching every criterion given as a non-empty string; an absent or empty criterion matches everyone |
| DiscoveryProperties.FetchedReviewsIff | apps/api/src/client/routes.ts:52-55 | the review query fetches, in order, exactly the reviews of the listed professionals |
| DiscoveryProperties.UnparsableRadiusKeepsAllProfessionals | apps/api/src/client/routes.ts:8-11 | a radius that parses to `null` (NaN or infinite) filters nothing: the response is the whole projection |
| DiscoveryProperties.ListedEstablishmentsIff | apps/api/src/client/routes.ts:190-193 | the query keeps, in order, the establishments of the category when one is given as a non-empty string, and all of them otherwise |
| DiscoveryProperties.UnparsableCriteriaKeepAllEstablishments | apps/api/src/client/routes.ts:185-219 | a radius or a minimum rating that parses to `null` drops that filter; with neither, the response is the whole projection |
| DiscoveryProperties.EstablishmentsKeptIff | apps/api/src/client/routes.ts:218-219 | a projected establishment is in the response exactly when (the radius or its distance is `null`, or the distance is at most the radius) and (the minimum or its rating is `null`, or the rating is at least the minimum) |
| DiscoveryProperties.EstablishmentFiltersCommute | apps/api/src/client/routes.ts:218-219 | running the rating filter before the range filter gives the same list |
| DiscoveryProperties.EstablishmentsOrderPreserved | apps/api/src/client/routes.ts:195-219 | the response ids are an order-preserving subsequence of the establishment ids |
| DiscoveryProperties.EstablishmentRatingsWithinStars | apps/api/src/client/routes.ts:197-200 | when every stored review has 1 to 5 stars, every rating in the response lies in [1, 5] |
| DiscoveryProperties.ThreeReviewsAverageFour | apps/api/src/client/routes.ts:197-200 | reviews of 3, 4 and 5 stars average 4 |
| DiscoveryProperties.RadiusScenario | apps/api/src/client/routes.ts:201-218 | an establishment 111.19 km away is dropped by a 100 km radius and kept, with its distance, by a 120 km radius |
| Sequences.Filter | apps/api/src/client/routes.ts:87 | `filter` never returns more elements than it was given |
| Sequences.FilterMembers | apps/api/src/client/routes.ts:87 | an element is in the filtered list exactly when it is in the input and is kept |
| Sequences.FilterSnoc | apps/api/src/client/routes.ts:87 | filtering `s + [x]` filters `s`, then keeps or drops `x` |
| Sequences.FilterIsSubsequence | apps/api/src/client/routes.ts:87 | `filter` returns an order-preserving subsequence of its input |
| Sequences.SubsequenceTransitive | apps/api/src/client/routes.ts:218-219 | a subsequence of a subsequence is a subsequence |
| Sequences.SubsequenceMap | apps/api/src/client/routes.ts:66-87 | mapping both lists keeps a subsequence a subsequence |
| Sequences.FilterCommutes | apps/api/src/client/routes.ts:218-219 | two filters in a row give the same list in either order |
| Sequences.FilterAbsorbs | apps/api/src/client/routes.ts:52-53 | filtering by `q` after filtering by a weaker `p` is filtering by `q` alone |
| Sequences.TotalSnoc | apps/api/src/client/routes.ts:107 | `reduce` adds the last element's score last |
| Sequences.TotalBounds | apps/api/src/client/routes.ts:199 | a sum of n scores that each lie in [lo, hi] lies in [lo * n, hi * n] |
| Sequences.FindFirst | apps/api/src/client/routes.ts:93-99 | nothing exactly when no element matches; otherwise the first matching element |
| Favorites.UpsertIdempotent | apps/api/src/client/routes.ts:131-143 | adding the same favorite twice gives the table that adding it once gives |
| Favorites.DeleteUndoesUpsert | apps/api/src/client/routes.ts:130-157 | adding a missing favorite and deleting it restores the table |
| Favorites.UpsertChangesOnlyThatUser | apps/api/src/client/routes.ts:130-145 | bookmarking adds exactly that professional to that user's favorites and leaves every other user's favorites unchanged |
| Favorites.DeleteChangesOnlyThatUser | apps/api/src/client/routes.ts:147-157 | un-bookmarking removes exactly that professional from that user's favorites and leaves every other user's favorites unchanged |
| Favorites.FavoriteStore.constructor | apps/api/src/client/routes.ts:130-131 | the store starts with an empty table |
| Favorites.FavoriteStore.Add | apps/api/src/client/routes.ts:130-145 | returns the row for the pair, and the new table is the upsert of the old one |
| Favorites.FavoriteStore.Remove | apps/api/src/client/routes.ts:147-157 | reports a deletion exactly when the row existed, and the new table is the old one without the pair |
| Favorites.FavoriteStore.List | apps/api/src/client/routes.ts:159-167 | a professional is listed exactly when the user has a row for it |
| Feed.RemainderZeroIffWhole | apps/web/app/feed/FeedClient.tsx:15-16 | for a non-negative count, the truncating `%` is 0 exactly when the quotient is whole |
| Feed.FmtCount | apps/web/app/feed/FeedClient.tsx:12-18 | plain exactly when the count is non-finite or below 1000 (and then the number, or 0); thousands exactly in [1000, 1000000); millions from 1000000 on; a scaled value times its unit is the count; 0 decimals exactly when the scaled value is whole, else 1 |
| Feed.FmtCountOfMissing | apps/web/app/feed/FeedClient.tsx:13-14 | `null`, infinity and NaN all show as the plain 0 |
| Feed.ExactMultiplesHaveNoDecimals | apps/web/app/feed/FeedClient.tsx:15-16 | k thousands (k < 1000) and k millions show as `k` with no decimals; one more unit shows one decimal |
| Feed.SuffixBySize | apps/web/app/feed/FeedClient.tsx:15-17 | the suffix is `M` from a million on, `k` from a thousand on, and none below |
| Feed.BucketsAreMonotonic | apps/web/app/feed/FeedClient.tsx:15-17 | a larger count never falls in a smaller bucket |
| Feed.FirstTruthy | apps/web/app/feed/FeedClient.tsx:181-186 | an `\|\|` chain gives the first non-empty string, or the fallback when there is none |
| Feed.FirstPresent | apps/web/app/feed/FeedClient.tsx:193-195 | a `??` chain gives the first present value, or the fallback when there is none |
| Feed.FirstPresentCons | apps/web/app/feed/FeedClient.tsx:193 | a `??` chain gives its first value when present, and otherwise the rest of the chain |
| Feed.FirstPresentOfFour | apps/web/app/feed/FeedClient.tsx:193-194 | a four-step `??` chain gives the first present of its four values, or the fallback |
| Feed.PostCard | apps/web/app/feed/FeedClient.tsx:178-195 | paywalled exactly when either flag is set; locked exactly when paywalled with no media delivered; the image URL is the first non-empty of media, preview and `imageUrl`; a locked card's image is the preview, else `imageUrl` |
| Feed.ImageUrlFallback | apps/web/app/feed/FeedClient.tsx:186 | the image URL is the first media URL if non-empty, else the preview URL, else `imageUrl`, else `''` |
| Feed.OnlyPaywalledWithoutMediaIsLocked | apps/web/app/feed/FeedClient.tsx:187-191 | a post that is not paywalled is never locked, and neither is one that delivers media |
| Feed.AuthorLinks | apps/web/app/feed/FeedClient.tsx:182-192 | with a username the link is `/perfil/<username>` and the handle `@<username>`; without one the link is `/inicio` and the handle empty |
| Feed.LikeCountFallback | apps/web/app/feed/FeedClient.tsx:193 | the like count is `likeCount` if present, else `likesCount`, else `_count.likes`, else `_count.Like`, else 0 |
| Feed.CommentCountFallback | apps/web/app/feed/FeedClient.tsx:194 | the comment count is `commentCount` if present, else `commentsCount`, else `_count.comments`, else `_count.Comment`, else 0 |
| Feed.ShareCountFallback | apps/web/app/feed/FeedClient.tsx:195 | the share count is `shareCount`, or 0 when missing |
| Feed.FrameFollowsLock | apps/web/app/feed/FeedClient.tsx:216-244 | a locked post shows its preview URL, else its `imageUrl`, blurred under an overlay linking to the author, and no frame when it has neither; a post that is not locked is never blurred or covered; a non-empty first media URL is shown plainly |
| Feed.LockedPostShowsPreview | apps/web/app/feed/FeedClient.tsx:185-244 | a paywalled post with its media withheld and a preview is locked and shows the preview blurred, under an overlay linking to the author |
| CreatePost.AcceptedFilesFitTheLimit | apps/web/components/CreatePostModal.tsx:64-65 | every file of an accepted selection is at most 100 MiB, in either mode |
| CreatePost.SizeLimitIsInclusive | apps/web/components/CreatePostModal.tsx:17-65 | a file of exactly 100 MiB passes in both modes; one byte more fails |
| CreatePost.ModesRefuseOtherKinds | apps/web/components/CreatePostModal.tsx:63-70 | reel mode refuses WebM and images; photo mode refuses MP4; reel mode accepts `VIDEO/QuickTime` |
| CreatePost.LowerIdempotent | apps/web/components/CreatePostModal.tsx:69 | lower-casing keeps the length, and lower-casing twice is lower-casing once |
| CreatePost.ReelModeIgnoresCase | apps/web/components/CreatePostModal.tsx:69 | in reel mode two files of the same size whose types differ only in case are both accepted or both refused |
| CreatePost.LowerCaseReelTypesIff | apps/web/components/CreatePostModal.tsx:63-69 | for a lower-case type, reel mode accepts exactly `video/mp4` and `video/quicktime` within 100 MiB |
| CreatePost.OneRefusedFileRefusesSelection | apps/web/components/CreatePostModal.tsx:64-70 | one refused file refuses the whole selection |
| CreatePost.PhotoSelectionsPreviewAsImages | apps/web/components/CreatePostModal.tsx:64-80 | in photo mode every tile of an accepted selection is an image tile |
| CreatePost.LowerCaseVideosPreviewAsVideos | apps/web/components/CreatePostModal.tsx:69-79 | a reel file accepted with a lower-case type gets a video tile |
| CreatePost.UpperCaseVideoAcceptedAsImageTile | apps/web/components/CreatePostModal.tsx:69-79 | reel mode accepts `VIDEO/MP4` but shows it as an image tile, because the tile test does not lower-case |
| CreatePost.Trim | apps/web/components/CreatePostModal.tsx:102-103 | `trim()` never lengthens the string, and its result neither starts nor ends with white space |
| CreatePost.TrimPadded | apps/web/components/CreatePostModal.tsx:102-103 | `trim()` returns a middle part of the string with only white space around it |
| CreatePost.TrimEmptyIffBlank | apps/web/components/CreatePostModal.tsx:102-103 | `trim()` returns `''` exactly when the string is all white space |
| CreatePost.TrimIdempotent | apps/web/components/CreatePostModal.tsx:102-103 | trimming twice is trimming once |
| CreatePost.DefaultTitle | apps/web/components/CreatePostModal.tsx:102 | the title sent is never empty, and it is the trimmed title whenever that is non-empty |
| CreatePost.DefaultBody | apps/web/components/CreatePostModal.tsx:103 | the body sent is never empty, and it is the trimmed body whenever that is non-empty |
| CreatePost.BlankFieldsGetDefaults | apps/web/components/CreatePostModal.tsx:102-103 | a blank title becomes "Nuevo reel" in reel mode and "Nueva publicación" in photo mode; a blank body becomes "Contenido compartido en UZEED." |
| CreatePost.NonBlankTitleIsKept | apps/web/components/CreatePostModal.tsx:102 | a title with any non-white-space character is sent trimmed, never replaced |
| CreatePost.CreatePostModal.constructor | apps/web/components/CreatePostModal.tsx:24-32 | the initial state: the default mode, empty fields, no selection, no error, progress 0, not uploading |
| CreatePost.CreatePostModal.Open | apps/web/components/CreatePostModal.tsx:36-47 | opening resets every field to its initial value |
| CreatePost.CreatePostModal.HandleFiles | apps/web/components/CreatePostModal.tsx:57-82 | an absent or empty list clears the selection and the previews; a list with any refused file sets the format error and keeps the old selection and previews; an accepted list clears the error and becomes the selection with one preview per file; nothing else changes |
| CreatePost.CreatePostModal.SelectMode | apps/web/components/CreatePostModal.tsx:178-181 | a mode button sets the mode and clears the selection and previews, leaving the error as it was |
| CreatePost.CreatePostModal.Submit | apps/web/components/CreatePostModal.tsx:84-106 | ignored while the session loads; a redirect to the login page when signed out; without files, the "select a file" error and no upload; otherwise the error is cleared, the upload starts, and the form has the defaulted title and body, `String(isPublic)`, price "0" and the selection, whose files are non-empty, accepted and within 100 MiB |
| CreatePost.CreatePostModal.OnLoad | apps/web/components/CreatePostModal.tsx:118-138 | the dialog closes exactly on a 2xx status, with progress 100; 401 and 403 give their own messages; any other status gives the generic message with that status; the upload always ends |
| CreatePost.CreatePostModal.OnError | apps/web/components/CreatePostModal.tsx:140-143 | a network failure sets the upload-failed message and ends the upload |
| CreatePost.UploadOneReel | apps/web/components/CreatePostModal.tsx:57-106 | opening in photo mode, switching to reels, picking one MP4 and submitting with blank fields sends "Nuevo reel", the default body, "false", "0" and that file |

## Left out

- The haversine trigonometry (`routes.ts:13-22`) is floating point. It is a caller-supplied function, and only which coordinates it is applied to is modelled.
- JavaScript's `Number(...)` coercion of query strings and request bodies is not modelled. A parameter is the already-coerced `JsNumber`.
- Floating-point arithmetic is not modelled: finite numbers are exact reals.
- Discovery.MeanRating: the `Number(x.toFixed(1))` rounding of ratings is not modelled, and the rating is the exact mean. A `minRating` comparison near a rounding boundary can therefore differ from the code.
- Feed.FmtCount: the digits `toFixed` prints are not modelled. The bucket, the scaled value and the number of decimals are.
- Prisma queries, Express routing, `asyncHandler`, `requireAuth` and the session are not modelled. The handlers take the rows the queries would return, already in query order, and the signed-in user id as a parameter.
- The `/categories` route only lists a table, so it is not modelled.
- The fields the handlers copy through unchanged are not modelled: avatar, active flag, tier, gender, category, city, address, phone, gallery, online status, the professional's `lastSeen` and the establishment's `description`.
- The favorites listing returns each professional's projection with `rating: null`. The model returns the set of bookmarked professional ids.
- Favorites.FavoriteStore.Remove: deleting a missing favorite makes Prisma's `delete` throw, which becomes an error response. The model reports `RecordNotFound` and leaves the table unchanged; the HTTP status is not modelled.
- Storing an accepted establishment review (`routes.ts:257-264`) is not modelled. The database column type is not part of this model, so star values that pass the guard are not followed further.
- React rendering, hooks, the feed's fetch effect, the `XMLHttpRequest` transport, `URL.createObjectURL` / `revokeObjectURL`, `resolveMediaUrl` and router navigation are not modelled. A preview's object URL is represented by its file, and the login redirect is an outcome.
- Upload progress (`onprogress`, `Math.round(loaded / total * 100)`) is not modelled. Only the final 100 on success is.
- Typing into the title, body and public-flag inputs is a plain field assignment, so it is not modelled as an operation.
- CreatePost.Lower: of `toLowerCase`, only ASCII capitals and the Kelvin sign are lowered. Every other lowering leaves at least one character that is not ASCII (U+0130, for instance, lowers to `i` followed by U+0307), so the comparison with the ASCII allowed MIME types is unaffected.
- Feed.PostCard: the paywall flags are booleans or missing. Other truthy values an API might send in those fields are not modelled.
- CreatePost.CreatePostModal.OnLoad: the generic message carries the status as a number. The message text is not modelled.
- CreatePost.CreatePostModal.OnLoad: on a 2xx status only the closing of the dialog (`onClose`) is modelled, as `closed`. The optional `onCreated` callback is not modelled.
- Favorites.FavoriteStore.Add: the database schema is not part of this model. If `professionalId` is a foreign key to the user table, as the `professional` relation read by the listing suggests, an upsert naming no user fails. The model always inserts the pair.
- DiscoveryProperties.ListAndDetailNamesAgree: it requires unique user ids (the primary key). The detail page's `findFirst` returns the first professional with the id, so without that the two names could come from different rows.
- DiscoveryProperties.DetailDescriptionFallsBackToBio: it requires unique user ids for the same reason.
- `apps/web/app/services/page.tsx` and `apps/web/app/cuenta/page.tsx` are fetch-and-render pages, so they are not modelled.
