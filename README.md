# Blog platform core, modelled in Dafny

This project models the application logic of a small blogging platform. It has an
Express/Mongoose backend and a React client. The model covers:

- **Likes.** The like toggle and the like status on a blog's `likes` list and
  `likesCount` counter. The invariant proved is that the counter equals the length of a
  duplicate-free like list.
- **Blog endpoints.** Listing, with the page/limit/skip/pages arithmetic, search, sort
  order and the per-author listing. Also read by id, create, update and delete, including
  the ownership checks (404 before 403), the fallback to the old title and content, the
  cover-image public id derived from a URL, and the cascade delete of a blog's comments.
- **Schemas.** The Blog and Comment schemas as validity predicates, with the trim setter
  running before the length checks. Also the `comments` virtual.
- **Authentication middleware.** The decisions of `protect` and `optionalAuth`, and
  bearer-token extraction.
- **Response envelope.** The `{ success, message, data }` record.
- **Client helpers.**
  - analytics totals;
  - relative-time buckets;
  - the session (user, token, local storage);
  - the comment thread;
  - the blog, registration, login and profile forms;
  - the preview card, the author dashboard and the paginated blog list.

Each component or controller with state is a class whose methods change its fields. Each
method's `ensures` ties the new state to the old state and the inputs, mostly through a
specification function. For the forms, the submit handler states whether any message is
shown (exactly when the form's `Accepts` predicate fails); the form's `Validate` states
which fields get a message and the exact text of each. Pure logic is written as functions, with lemmas about
them.

The database is a `Db` object holding sequences of blogs and comments (`store.dfy`). The
image host and the temporary upload files are outside calls, recorded in order as
`Effect` values on that object. Token verification and the user lookup are passed in as
a token table and a set of existing user ids. A server answer the client waits for is a
parameter of the client method that awaits it. The same holds for a `window.confirm`
answer and a generated object URL.

The dashboard's publish and unpublish actions send a `status` field of "published" or
"draft" together with the blog's title and content (MyBlogs.jsx:82-85 and 103-106). The
Blog schema has no such field (Blog.js:3-47), and `updateBlog` reads only the title and
content from the body (blogController.js:133). So the update saves the blog unchanged
(`MyBlogs.StatusUpdateChangesNothing`), and the model has no publish status.

## Model

| member | source | states |
|---|---|---|
| ApiResponse.Success | blog-backend/utils/apiResponse.js:2-8 | the envelope has `success` true; the status code, message and data pass through unchanged; data defaults to null |
| ApiResponse.Error | blog-backend/utils/apiResponse.js:10-16 | the envelope has `success` false; the status code, message and data pass through unchanged; data defaults to null |
| BlogModel.CreateBlog | blog-backend/models/Blog.js:5-42 | creation succeeds exactly when no schema path fails; otherwise the error names every failing path |
| BlogModel.BlogSchemaErrors | blog-backend/models/Blog.js:5-42 | every failing path of a blog: title, content, cover image and author, each by its own validator; used by BlogModel.CreateBlog |
| BlogModel.CreatedBlogValid | blog-backend/models/Blog.js:5-42 | a created blog stores the trimmed input title (5..200 characters), the input content (at least 20) and the input cover, and the given author; both counters start at 0 with an empty like list; both timestamps are the creation time |
| BlogModel.SchemaAllowsRepeatedLikes | blog-backend/models/Blog.js:26-35 | the schema accepts a blog that lists one liker twice with a count of 2, so duplicate-freedom rests on the toggle alone |
| BlogModel.CommentsOfSpec | blog-backend/models/Blog.js:49-54 | the virtual holds exactly the comments whose `blog` is the blog's id, each as often as stored, newest first |
| BlogModel.CommentsOf | blog-backend/models/Blog.js:49-54 | the `comments` virtual: the comments referencing the blog, sorted by `createdAt` descending; stated by BlogModel.CommentsOfSpec |
| BlogModel.CreateComment | blog-backend/models/Comment.js:5-21 | creation succeeds exactly when the trimmed content is 1..500 characters and both references are present; otherwise the error names every failing path |
| BlogModel.CommentSchemaErrors | blog-backend/models/Comment.js:5-21 | every failing path of a comment: content, author and blog; used by BlogModel.CreateComment |
| BlogModel.CreatedCommentValid | blog-backend/models/Comment.js:5-25 | a created comment stores its input content trimmed (1..500 characters), the given author and blog, and both timestamps set to the creation time |
| BlogModel.WhitespaceCommentRejected | blog-backend/models/Comment.js:7-9 | content made only of white space fails, because trimming precedes the minimum-length check |
| Store.FindBlog | blog-backend/controllers/likeController.js:9 | `findById` yields the position of the blog with that id, or nothing when no blog has it |
| Store.ReplaceKeepsValid | blog-backend/controllers/blogController.js:157-162 | saving a valid document over a blog with the same id keeps every stored blog valid and the ids unique |
| Store.AppendKeepsValid | blog-backend/controllers/blogController.js:97-102 | inserting a valid blog under an id not yet used keeps every stored blog valid and the ids unique |
| LikeController.ToggleLike | blog-backend/controllers/likeController.js:7-44 | an unknown id answers 404 "Blog not found" and changes nothing; otherwise only that blog is replaced by its toggled form; the answer carries the new like flag and counter; likes consistency of the collection is preserved |
| LikeController.Toggle | blog-backend/controllers/likeController.js:16-35 | the document the toggle saves: the caller filtered out with the counter decremented and floored at 0, or pushed with the counter incremented; stated by LikeController.ToggleWhenAbsent, ToggleWhenPresent, ToggleKeepsLikesConsistent and LikeThenUnlikeRestores |
| LikeController.ToggleWhenAbsent | blog-backend/controllers/likeController.js:30-39 | liking appends the caller at the end of `likes` and adds exactly one to the counter |
| LikeController.ToggleWhenPresent | blog-backend/controllers/likeController.js:18-23 | unliking removes every occurrence of the caller and keeps every other id in order; the counter becomes max(0, count − 1), never negative |
| LikeController.ToggleTouchesOnlyLikes | blog-backend/controllers/likeController.js:18-35 | a toggle writes only `likes`, `likesCount` and the save's `updatedAt` stamp |
| LikeController.ToggleKeepsLikesConsistent | blog-backend/controllers/likeController.js:16-35 | if the counter equals the length of a duplicate-free like list before a toggle, it still does afterwards |
| LikeController.LikeThenUnlikeRestores | blog-backend/controllers/likeController.js:18-39 | a like followed by an unlike by the same user restores `likes` and `likesCount` |
| LikeController.LikeStatus | blog-backend/controllers/likeController.js:49-66 | answers 404 for an unknown blog, and otherwise whether the caller is in `likes`, with the stored counter; it is a function, so nothing is written |
| LikeController.StatusAfterToggle | blog-backend/controllers/likeController.js:51-62 | after a toggle the status reports the opposite membership and the counter the toggle answered with |
| Numbers.IntParamOr | blog-backend/controllers/blogController.js:15-16 | `parseInt(x) \|\| d`: an absent, unparsable or zero value gives the default, and any other parsed value is kept; a non-zero default never yields 0 |
| Numbers.CeilDivBounds | blog-backend/controllers/blogController.js:42 | with a positive limit, `ceil(total / limit)` is the least page count holding `total` items, and is 0 exactly when `total` is 0 |
| Numbers.ParseInt | blog-backend/controllers/blogController.js:15-16 | `parseInt` in base 10: leading white space, an optional sign, then the longest digit run; no digits is NaN (None). Its read-back property is Numbers.ParseIntOfNatToString |
| Numbers.ParseIntOfNatToString | blog-backend/controllers/blogController.js:15-16 | a decimal number followed by non-digit text parses back to that number |
| Numbers.CeilDiv | blog-backend/controllers/blogController.js:42 | `Math.ceil(total / limit)` for a non-zero limit, rounding up for either sign; stated by Numbers.CeilDivBounds |
| Strings.Trim | blog-backend/models/Blog.js:8 | `String.prototype.trim`: white space removed at both ends; stated by Strings.TrimIdempotent and Strings.TrimEmptyIffAllSpace |
| Strings.TrimIdempotent | blog-backend/models/Blog.js:8 | trimming twice is trimming once |
| Strings.TrimEmptyIffAllSpace | blog-backend/models/Comment.js:7-9 | a string trims to "" exactly when it is all white space |
| Strings.Split | blog-backend/controllers/blogController.js:139-143 | `split` on one character: at least one piece, and no piece contains the separator |
| Strings.JoinSplit | blog-backend/controllers/blogController.js:139-143 | joining the pieces of a split with the same separator gives the string back |
| Strings.SplitAround | blog-backend/controllers/blogController.js:197-201 | splitting `a + sep + b` gives the pieces of `a` followed by those of `b` |
| Strings.SplitHead | blog-backend/middleware/authMiddleware.js:14 | the first piece of a split is the text before the first separator |
| Sorting.SortBy | blog-backend/controllers/blogController.js:31 | the sort the store applies: a permutation of the input whose keys follow the requested direction |
| Sorting.SortedPrefixLeads | blog-backend/controllers/blogController.js:29-33 | the first n elements of a sorted arrangement of a list take only its elements, and none of the elements left out may precede them |
| BlogController.Window | blog-backend/controllers/blogController.js:32-33 | skip then limit takes at most abs(limit) consecutive items starting at `skip` |
| BlogController.SortKey | blog-backend/controllers/blogController.js:19-31 | `sortBy` names the field sorted on: createdAt, updatedAt, likesCount or commentsCount; any other name is a constant key (see Left out) |
| BlogController.Selected | blog-backend/controllers/blogController.js:18-23 | the blogs the query draws from: the search matches, or all blogs when `search` is absent or empty |
| BlogController.Paginate | blog-backend/controllers/blogController.js:17-43 | the query fails exactly when `(page − 1) × limit` is negative |
| BlogController.PaginateSpec | blog-backend/controllers/blogController.js:17-43 | the page is exactly the window from `skip = (page − 1) × limit` of the selected blogs sorted by the key (a sorted permutation of them, with ties in one fixed stable order; for distinct keys, pages of the same query never overlap); at most abs(limit) blogs; the pagination reports page, limit, the filtered total and ceil(total/limit); with a positive limit, page p ≥ 1 is non-empty exactly when p ≤ pages |
| BlogController.PageStartsBeforeTotal | blog-backend/controllers/blogController.js:32-42 | with a positive limit, page p ≥ 1 starts before the end of the items exactly when p ≤ ceil(total/limit), and its skip is never negative |
| BlogController.GetBlogs | blog-backend/controllers/blogController.js:13-48 | the listing handler: parse page and limit, select, count, sort, skip and limit, or pass a negative skip to the error handler; stated by BlogController.GetBlogsSpec, GetBlogsForwardsIffNegativeSkip, GetBlogsAnswersPage and GetBlogsDefaults |
| BlogController.GetBlogsSpec | blog-backend/controllers/blogController.js:13-48 | page and limit are the parsed values; the total counts the search matches, or all blogs without a search; the blogs are exactly the window from `(page − 1) × limit`, at most abs(limit) long, of those blogs sorted by the key, ascending only for "asc"; so only such blogs are listed, in that order |
| BlogController.GetBlogsForwardsIffNegativeSkip | blog-backend/controllers/blogController.js:15-17 | the listing goes to the error handler exactly when the parsed page and limit give a negative skip |
| BlogController.GetBlogsDefaults | blog-backend/controllers/blogController.js:15-20 | with no parameters: page 1, limit 10, all blogs counted, and the ten newest blogs (all of them when fewer), newest first; no blog left out is newer than a listed one |
| BlogController.GetBlogsAnswersPage | blog-backend/controllers/blogController.js:13-48 | for a parsed page and limit of at least 1 the listing always answers, echoes both, and holds blogs exactly when the page is within the page count |
| BlogController.NewestFirstPage | blog-backend/controllers/blogController.js:229-231 | the first page of ten, newest first, is the ten newest of the selection: no blog left out is newer than a listed one |
| BlogController.GetBlogsByUser | blog-backend/controllers/blogController.js:219-246 | the author listing: the author's blogs, newest first, paginated like the main listing; stated by BlogController.GetBlogsByUserSpec |
| BlogController.GetBlogsByUserSpec | blog-backend/controllers/blogController.js:219-246 | page and limit are the parsed values; the blogs are exactly the window from `(page − 1) × limit` of the user's blogs sorted newest first; every listed blog is the user's; the total counts all of them |
| BlogController.GetBlogByIdSpec | blog-backend/controllers/blogController.js:53-71 | 404 for an unknown id; otherwise the blog with its comments, newest first |
| BlogController.GetBlogById | blog-backend/controllers/blogController.js:53-71 | the read handler: 404 "Blog not found", or the blog with its `comments` virtual; stated by BlogController.GetBlogByIdSpec |
| BlogController.PublicId | blog-backend/controllers/blogController.js:139-143 | the derived public id contains no "." |
| BlogController.PublicIdOfHostedUrl | blog-backend/controllers/blogController.js:197-201 | for `<prefix>/<folder>/<name>.<ext>` the public id is `<folder>/<name>` |
| BlogController.Create | blog-backend/controllers/blogController.js:76-115 | the create handler as one step: the reply, the outside calls in order and the stored document; stated by BlogController.CreateSpec |
| BlogController.SaveEdit | blog-backend/controllers/blogController.js:157-162 | the document `save()` writes after the fallback assignments: validated, with the title trimmed and `updatedAt` moved only on a real change; stated by BlogController.SaveEditSpec |
| BlogController.Save | blog-backend/controllers/blogController.js:162-170 | a failed save passes the validation error on; a successful one answers 200 "Blog updated successfully" with the saved blog; used by BlogController.UpdateSpec |
| BlogController.Edit | blog-backend/controllers/blogController.js:133-178 | the update once the author is checked: with a file, destroy the old image, upload, remove the temporary file, then save; stated by BlogController.UpdateSpec and BlogController.EditLosesCoverOnRejectedTitle |
| BlogController.Update | blog-backend/controllers/blogController.js:120-178 | the update handler: 404, then 403, then the edit; stated by BlogController.UpdateSpec |
| BlogController.CreateSpec | blog-backend/controllers/blogController.js:76-115 | missing title or content is a 400 before the file is checked, then a missing file is a 400, with no outside call in either case; a blog is stored exactly when the answer is 201, with the caller as author, the trimmed title and the uploaded URL; once uploading starts, the temporary file is removed |
| BlogController.SaveEditSpec | blog-backend/controllers/blogController.js:157-162 | a falsy title or content keeps the old value; the saved blog keeps its id, author, likes, counters and creation time and is valid; an edit that changes nothing saves the blog as it was; a too-short title is a validation error |
| BlogController.UpdateSpec | blog-backend/controllers/blogController.js:120-178 | 404 when absent, then 403 for a non-author, with nothing saved or called in either case; a saved edit answers 200, keeps the id, and changes the cover only when a file was given |
| BlogController.EditLosesCoverOnRejectedTitle | blog-backend/controllers/blogController.js:137-162 | as written: a new file with a 3-character title destroys the old image, then fails validation, so the stored blog still points at the destroyed image |
| BlogController.EditKeepingCoverSpec | blog-backend/controllers/blogController.js:137-162 | the corrected edit answers and saves as the original does, makes the same calls when it succeeds, and never destroys the image the stored blog points at |
| BlogController.RemoveAt | blog-backend/controllers/blogController.js:208 | removing a position keeps every other blog in order |
| BlogController.DeleteSpec | blog-backend/controllers/blogController.js:183-214 | after the delete no comment references the blog; every other comment and blog is kept |
| BlogController.RemoveKeepsValid | blog-backend/controllers/blogController.js:208 | removing a blog keeps every remaining blog valid and the ids unique |
| BlogController.CreateBlog | blog-backend/controllers/blogController.js:76-115 | the store and the recorded calls change exactly as the create step says; the store stays valid with unique ids |
| BlogController.UpdateBlog | blog-backend/controllers/blogController.js:120-131 | 404 and 403 leave the store and the calls unchanged; otherwise the blog is updated as the edit step says |
| BlogController.EditBlog | blog-backend/controllers/blogController.js:133-178 | destroy, upload and temp-file removal are recorded in the source's order; the blog is replaced by the saved one only when the save succeeds |
| BlogController.DeleteBlog | blog-backend/controllers/blogController.js:183-214 | 404 then 403 change nothing; otherwise it records the image destroy, the comment deletion and the document deletion in that order, and removes the blog and all its comments |
| AuthMiddleware.Protect | blog-backend/middleware/authMiddleware.js:5-36 | a missing or non-Bearer header gets 401 "Not authorized, no token"; a failed verification gets 401 "Not authorized, token failed"; a deleted user gets 401 "User not found" with `req.user` null; otherwise `req.user` is set and `next` is called once with nothing sent |
| AuthMiddleware.HasBearer | blog-backend/middleware/authMiddleware.js:8-11 | the header is present, non-empty and starts with "Bearer" |
| AuthMiddleware.BearerToken | blog-backend/middleware/authMiddleware.js:14 | the second space-separated piece of the header, or undefined (None); stated by AuthMiddleware.BearerHeaderRoundTrip and MalformedBearerRefused |
| AuthMiddleware.Verify | blog-backend/middleware/authMiddleware.js:17 | `jwt.verify` as a token table: a missing or empty token, or one not in the table, throws (None) |
| AuthMiddleware.Decide | blog-backend/middleware/authMiddleware.js:5-36 | protect's verdict: "no token" without Bearer, "token failed" when verification throws, "User not found" for a deleted user, else the user; used by AuthMiddleware.Protect |
| AuthMiddleware.OptionalUser | blog-backend/middleware/authMiddleware.js:38-56 | the `req.user` optionalAuth leaves: untouched without Bearer, the verified user (null when deleted), null on a failed verification; stated by AuthMiddleware.ProtectAgreesWithOptional |
| AuthMiddleware.OptionalAuth | blog-backend/middleware/authMiddleware.js:38-56 | `next` is called exactly once and nothing is sent; `req.user` is untouched without a Bearer header, and null on a failed verification |
| AuthMiddleware.ProtectAgreesWithOptional | blog-backend/middleware/authMiddleware.js:5-56 | `protect` grants exactly the user `optionalAuth` would set, and refuses with "no token" exactly when there is no Bearer header |
| AuthMiddleware.BearerHeaderRoundTrip | blog-backend/middleware/authMiddleware.js:14-17 | the header "Bearer <token>" yields that token, so a valid token for an existing user is granted and an empty token is refused |
| AuthMiddleware.MalformedBearerRefused | blog-backend/middleware/authMiddleware.js:8-30 | "Bearer" alone, or two spaces before the token, passes the prefix test but fails verification |
| Analytics.Compute | frontend/src/api/analytics.js:12-28 | totalBlogs is the number of blogs; totalLikes and totalComments are the sums of the blogs' `likesCount` and `commentsCount`; the blogs are returned unchanged; views = 3 × likes + 2 × comments |
| Analytics.SumLikes | frontend/src/api/analytics.js:13 | `reduce` adding each blog's `likesCount` from 0; stated by Analytics.SumsAppend and LikesTotalIsLikers |
| Analytics.SumComments | frontend/src/api/analytics.js:14-17 | `reduce` adding each blog's `commentsCount` from 0; stated by Analytics.SumsAppend |
| Analytics.SumsAppend | frontend/src/api/analytics.js:13-17 | the sums split over any concatenation of the list |
| Analytics.TotalsSpec | frontend/src/api/analytics.js:12-28 | an empty list gives all-zero totals; with consistent likes, total likes count the likers and are not negative |
| Analytics.LikesTotalIsLikers | frontend/src/api/analytics.js:13 | with consistent likes, the like total is the total length of the like lists |
| Analytics.AnalyticsCoverFirstPageOnly | frontend/src/api/analytics.js:8 | without page and limit, the totals cover at most ten of the user's blogs, and those are the newest (no blog of the user's left out is newer), while the pagination total counts all of them |
| FormatDate.DiffInSeconds | frontend/src/utils/formatDate.js:20 | the difference is the floor of the millisecond gap divided by 1000, for negative gaps too |
| FormatDate.Bucket | frontend/src/utils/formatDate.js:22-30 | the relative-time bucket of a difference in seconds; stated by FormatDate.BucketSpec and FormatDate.BucketMonotone |
| FormatDate.Render | frontend/src/utils/formatDate.js:22-30 | the label of a bucket: "just now", "<n> minutes ago", "<n> hours ago", "<n> days ago", or the absolute date; stated by FormatDate.LabelReadsBack |
| FormatDate.GetRelativeTime | frontend/src/utils/formatDate.js:17-31 | the label of the bucket of the floored second difference |
| FormatDate.BucketSpec | frontend/src/utils/formatDate.js:22-30 | below 60 s (future dates included) is "just now"; minutes 1..59, hours 1..23 and days 1..6 each cover their range; a week or more is the absolute date |
| FormatDate.BucketMonotone | frontend/src/utils/formatDate.js:22-30 | an older date never gets a finer bucket, nor a smaller number within the same bucket |
| FormatDate.LabelReadsBack | frontend/src/utils/formatDate.js:23-28 | the number printed in a label parses back to the bucket's count |
| AuthContext.Stripped | frontend/src/context/AuthContext.jsx:31 | the user record keeps every field except the token |
| AuthContext.TokenOf | frontend/src/context/AuthContext.jsx:31 | the body's token, or undefined (None) when it has none; stated by AuthContext.SignedInState |
| AuthContext.StoredForm | frontend/src/context/AuthContext.jsx:33 | the string `setItem` stores: the token, or "undefined" for a missing one; stated by AuthContext.SignedInState |
| AuthContext.Merge | frontend/src/context/AuthContext.jsx:79 | updated fields win, other fields are kept, and a null user contributes nothing |
| AuthContext.Session.constructor | frontend/src/context/AuthContext.jsx:7-9 | the token comes from storage, the user is null and loading is on |
| AuthContext.Session.InitAuth | frontend/src/context/AuthContext.jsx:13-22 | the user is restored only when both keys are stored; loading ends whatever the outcome |
| AuthContext.Session.SignIn | frontend/src/context/AuthContext.jsx:29-45 | an answer stores the token and the stripped user in state and storage; a failure returns the server message or the fallback and changes nothing |
| AuthContext.Session.Login | frontend/src/context/AuthContext.jsx:28-46 | as SignIn, with the fallback "Login failed" |
| AuthContext.Session.Register | frontend/src/context/AuthContext.jsx:49-67 | as SignIn, with the fallback "Registration failed" |
| AuthContext.Session.Logout | frontend/src/context/AuthContext.jsx:70-75 | both storage keys are removed, token and user become null, and the session is not authenticated |
| AuthContext.Session.UpdateUser | frontend/src/context/AuthContext.jsx:78-82 | the merged user is set and persisted; the token is untouched |
| AuthContext.SignedInState | frontend/src/context/AuthContext.jsx:31-37 | the stored token is the body's token, and the stripped user plus the token rebuilds the body |
| AuthContext.MountProvider | frontend/src/context/AuthContext.jsx:9-25 | after mounting, loading is off; the session is authenticated exactly when a truthy token is stored, even without a stored user |
| AuthContext.MergeSpec | frontend/src/context/AuthContext.jsx:79 | merging the same update twice is merging it once, and an empty update keeps the user |
| CommentSection.ReplaceById | frontend/src/components/blog/CommentSection.jsx:70-72 | same length; exactly the comments with that id are replaced, the others are kept in place |
| CommentSection.RemoveById | frontend/src/components/blog/CommentSection.jsx:86 | the comments whose id differs from the deleted one, in order; stated by CommentSection.RemoveByIdSpec |
| CommentSection.ShowsControls | frontend/src/components/blog/CommentSection.jsx:182 | the as-written owner test: the two optional ids are equal, absent ones included; stated by CommentSection.ControlsShownToSignedOutViewer |
| CommentSection.OwnsComment | frontend/src/components/blog/CommentSection.jsx:182 | the corrected owner test: a signed-in user whose id is the comment author's; stated by CommentSection.OwnsCommentSpec |
| CommentSection.RemoveByIdSpec | frontend/src/components/blog/CommentSection.jsx:86 | exactly the comments with that id are dropped, and the rest keep their relative order |
| CommentSection.AddThenDeleteRestores | frontend/src/components/blog/CommentSection.jsx:56 | prepending a comment with a new id and then deleting it gives the list back |
| CommentSection.EditThenDelete | frontend/src/components/blog/CommentSection.jsx:70-86 | editing and then deleting a comment is the same as deleting it |
| CommentSection.ControlsShownToSignedOutViewer | frontend/src/components/blog/CommentSection.jsx:182 | as written, a signed-out viewer sees the controls on a comment whose author is missing |
| CommentSection.OwnsCommentSpec | frontend/src/components/blog/CommentSection.jsx:182 | the corrected test holds exactly for a signed-in user who wrote the comment, and agrees with the written test whenever someone is signed in |
| CommentSection.Thread.HandleAddComment | frontend/src/components/blog/CommentSection.jsx:40-63 | signed out: a redirect to "/login" with the blog path and a message, and nothing else; blank text does nothing; otherwise the text is sent, and the returned comment is prepended and the box cleared, or the message is alerted |
| CommentSection.Thread.HandleEditComment | frontend/src/components/blog/CommentSection.jsx:65-78 | a blank edit does nothing; success replaces only that id in place and leaves edit mode; a failure alerts and keeps everything |
| CommentSection.Thread.HandleDeleteComment | frontend/src/components/blog/CommentSection.jsx:80-90 | nothing without confirmation; success drops that id only; a failure alerts |
| CommentSection.Thread.StartEditing | frontend/src/components/blog/CommentSection.jsx:92-95 | the comment's id and text are copied into the edit state |
| CommentSection.Thread.CancelEditing | frontend/src/components/blog/CommentSection.jsx:97-100 | the edit state is cleared |
| Forms.EmailLikeNeeds | frontend/src/components/auth/RegisterForm.jsx:40 | a matching address contains "@" and "." and has at least five characters |
| Forms.EmailLikeUnanchored | frontend/src/components/auth/RegisterForm.jsx:40 | the pattern is unanchored: surrounding text does not stop a match |
| Forms.EmailExamples | frontend/src/components/auth/RegisterForm.jsx:40 | "a@b.c" matches; "a@b" and "" do not |
| Forms.EmailLike | frontend/src/components/auth/RegisterForm.jsx:40 | `/\S+@\S+\.\S+/.test`: some "@" has a non-space before it, only non-spaces up to a later ".", and a non-space after it; stated by Forms.EmailLikeNeeds, EmailLikeUnanchored and EmailExamples |
| Forms.Get | frontend/src/components/auth/RegisterForm.jsx:31-56 | a field's text, with an absent field read as "" (both falsy) |
| Forms.FormState.HandleChange | frontend/src/components/auth/LoginForm.jsx:31-38 | the field takes the value, that field's message is blanked while every other message stays, and the API error is cleared |
| RegisterForm.Validate | frontend/src/components/auth/RegisterForm.jsx:31-56 | one message per failing field, with its exact text: trimmed name under 2 ("Name must be at least 2 characters"); email empty or not matching (required or invalid); password empty or shorter than 6, untrimmed (required or too short); confirmation different ("Passwords do not match"). The form is valid exactly when there is no message, which is exactly when RegisterForm.Accepts holds |
| RegisterForm.Accepts | frontend/src/components/auth/RegisterForm.jsx:31-56 | the registration form is accepted when the trimmed name has at least 2 characters, the email matches, the password has at least 6 and the confirmation equals it |
| RegisterForm.AcceptsIffNoMessage | frontend/src/components/auth/RegisterForm.jsx:31-56 | the four per-field message rules leave no message exactly when the form is accepted |
| RegisterForm.Payload | frontend/src/components/auth/RegisterForm.jsx:64 | the body is the form without `confirmPassword`, every other field unchanged |
| RegisterForm.HandleSubmit | frontend/src/components/auth/RegisterForm.jsx:58-73 | messages are shown exactly when the form is not accepted, and then nothing is sent and nothing changes; an accepted form sends the data without `confirmPassword`; success stores the token and the stripped user and navigates to "/home"; both the session state and local storage hold the token and user (AuthContext.jsx:33-37); failure shows the message or "Registration failed" and keeps the session state and storage |
| LoginForm.Validate | frontend/src/components/auth/LoginForm.jsx:40-55 | the email is required and must match the pattern (required or invalid message); the password is only required ("Password is required"); the form is valid exactly when there is no message, which is exactly when LoginForm.Accepts holds |
| LoginForm.Accepts | frontend/src/components/auth/LoginForm.jsx:40-55 | the login form is accepted when the email matches and a password is typed |
| LoginForm.AcceptsIffNoMessage | frontend/src/components/auth/LoginForm.jsx:40-55 | the two per-field message rules leave no message exactly when the form is accepted |
| LoginForm.RedirectTarget | frontend/src/components/auth/LoginForm.jsx:66 | a truthy `from` is the target, otherwise "/home" |
| LoginForm.ReturnsToBlogAfterLogin | frontend/src/components/auth/LoginForm.jsx:66-67 | a reader sent to log in by the comment box returns to that blog |
| LoginForm.HandleSubmit | frontend/src/components/auth/LoginForm.jsx:57-72 | messages are shown exactly when the form is not accepted, and then nothing is sent and nothing changes; an accepted form sends its fields as they are; success stores the token and the stripped user and navigates to the redirect target; both the session state and local storage hold the token and user; failure shows the message or "Login failed" and keeps the session state and storage |
| BlogForm.Validate | frontend/src/components/blog/BlogForm.jsx:82-101 | at most one title message (trimmed length outside 5..200); a content message ("Content must be at least 20 characters") when the trimmed content is under 20; a cover message ("Please upload a cover image") only when creating without a file; valid exactly when there is no message |
| BlogForm.ClientAcceptedCreateIsStored | frontend/src/components/blog/BlogForm.jsx:110-124 | a form the client accepts, sent trimmed to create, is stored with a 201 and exactly the sent title and content |
| BlogForm.ClientAcceptedEditIsStored | frontend/src/components/blog/BlogForm.jsx:110-124 | a form the client accepts, sent trimmed to update with no file, passes the server's validation |
| BlogForm.Editor.constructor | frontend/src/components/blog/BlogForm.jsx:12-32 | the form starts from the initial blog's title, content and cover preview, or blank |
| BlogForm.Editor.HandleImageChange | frontend/src/components/blog/BlogForm.jsx:43-75 | a type outside the five allowed sets "Please select a valid image file"; over 5 MiB sets the size message (exactly 5 MiB is accepted); in both cases the cover is kept. An accepted file becomes the cover and the preview, and its message is blanked. A checked cover stays checked |
| BlogForm.Editor.RemoveImage | frontend/src/components/blog/BlogForm.jsx:77-80 | no file; the preview falls back to the initial cover or "" |
| BlogForm.Editor.HandleSubmit | frontend/src/components/blog/BlogForm.jsx:103-132 | an invalid form sends nothing; a valid one sends the trimmed title and content, the file only if chosen, to update iff editing; then it opens the saved blog or shows the message or "Failed to save blog" |
| Profile.Field | frontend/src/pages/Profile.jsx:17-19 | a missing user or field reads as "" |
| Profile.Seeded | frontend/src/pages/Profile.jsx:16-22 | the form holds the user's name, bio and avatar, and blank passwords |
| Profile.Validate | frontend/src/pages/Profile.jsx:38-55 | each failing field gets its exact text: trimmed name under 2 ("Name must be at least 2 characters"); a non-empty password under 6 ("Password must be at least 6 characters"); a password different from its confirmation, even when blank ("Passwords do not match"); valid exactly when there is no message, which is exactly when Profile.Accepts holds |
| Profile.Accepts | frontend/src/pages/Profile.jsx:38-55 | the profile form is accepted when the trimmed name has at least 2 characters, the password is empty or has at least 6, and the confirmation equals it |
| Profile.AcceptsIffNoMessage | frontend/src/pages/Profile.jsx:38-55 | the three per-field message rules leave no message exactly when the form is accepted |
| Profile.Payload | frontend/src/pages/Profile.jsx:65-74 | always name, bio and avatar; the password only when non-empty |
| Profile.CancelAfterSaveShowsSaved | frontend/src/pages/Profile.jsx:93-100 | cancelling after a saved update shows the values the server returned |
| Profile.Page.constructor | frontend/src/pages/Profile.jsx:13-26 | the form is seeded from the session's user, with no messages and not editing |
| Profile.Page.HandleChange | frontend/src/pages/Profile.jsx:28-36 | as every form's change handler, and the success banner is cleared |
| Profile.Page.HandleSubmit | frontend/src/pages/Profile.jsx:57-91 | messages are shown exactly when the form is not accepted, and then nothing is sent and the values, banner, edit mode, message and session are kept; an accepted form sends the payload; success merges the answer into the session and its storage, keeps the token, shows the banner, leaves edit mode and blanks both passwords; failure shows the message or "Failed to update profile" and keeps the banner, edit mode and session; the stored token is never touched |
| Profile.Page.HandleCancel | frontend/src/pages/Profile.jsx:93-105 | the form is re-seeded from the session's user, with all messages cleared and edit mode off |
| BlogCard.Truncate | frontend/src/components/blog/BlogCard.jsx:17-20 | text that fits is unchanged; longer text becomes its first maxLength characters plus "...", exactly maxLength + 3 long |
| BlogCard.Excerpt | frontend/src/components/blog/BlogCard.jsx:17-20 | the card's excerpt: truncation at the default of 150; stated by BlogCard.TruncateStable |
| BlogCard.TruncateStable | frontend/src/components/blog/BlogCard.jsx:17-20 | an excerpt is a prefix of the text followed by nothing or the ellipsis, and truncating it again changes nothing |
| BlogCard.AuthorLabel | frontend/src/components/blog/BlogCard.jsx:54 | the author's name when truthy, otherwise "Anonymous" |
| BlogCard.CountLabel | frontend/src/components/blog/BlogCard.jsx:77-81 | a missing counter shows 0, and any present one shows its value |
| MyBlogs.RowExcerpt | frontend/src/pages/MyBlogs.jsx:142-145 | the same truncation with a default of 100 |
| MyBlogs.StatusUpdateChangesNothing | frontend/src/pages/MyBlogs.jsx:82-87 | resending a blog's own title and content without a file saves it unchanged, so the status is not stored |
| MyBlogs.Dashboard.FetchCounts | frontend/src/pages/MyBlogs.jsx:53-67 | the counts are the two queries' pagination totals, kept on failure |
| MyBlogs.Dashboard.SetStatus | frontend/src/pages/MyBlogs.jsx:79-119 | the blog's own title and content are sent with "published" or "draft"; success closes the menu, failure alerts |
| MyBlogs.Dashboard.DeleteConfirm | frontend/src/pages/MyBlogs.jsx:127-140 | after a successful delete exactly the rows with that id leave the list, the others keep their order |
| MyBlogs.Dashboard.ToggleMenu | frontend/src/pages/MyBlogs.jsx:296-300 | clicking the open menu closes it, any other click opens that row's menu; at most that row's menu is open |
| BlogList.QueryReadsBack | frontend/src/components/blog/BlogList.jsx:31-35 | the page and limit the client sends are read back by the server as sent |
| BlogList.RequestedPageIsAnswered | frontend/src/components/blog/BlogList.jsx:28-45 | for page and limit of at least 1, the server answers that page and limit, and the page holds blogs exactly when it is within the page count |
| BlogList.ListPage.constructor | frontend/src/components/blog/BlogList.jsx:13-22 | page 1, limit 10, total 0, pages 0, controls hidden |
| BlogList.ListPage.SetSearchTerm | frontend/src/components/blog/BlogList.jsx:74 | only the search term changes |
| BlogList.ListPage.Fetch | frontend/src/components/blog/BlogList.jsx:28-35 | a request is sent with the current page and limit |
| BlogList.ListPage.Receive | frontend/src/components/blog/BlogList.jsx:36-44 | an answer replaces the list and the whole pagination record and clears the error; a failure shows the message or "Failed to load blogs" and keeps the rest |
| BlogList.ListPage.HandleSearch | frontend/src/components/blog/BlogList.jsx:47-51 | the page goes back to 1, while the request sent at once still uses the old page |
| BlogList.ListPage.HandlePageChange | frontend/src/components/blog/BlogList.jsx:53-56 | only the page changes; limit, total and pages are kept |
| BlogList.ListPage.ClickPrevious | frontend/src/components/blog/BlogList.jsx:105-113 | enabled only when the controls show (pages > 1) and the page is not 1; it steps back one page and keeps the page within 1..pages |
| BlogList.ListPage.ClickNext | frontend/src/components/blog/BlogList.jsx:117-123 | enabled only when the controls show and the page is not the last; it steps forward one page and keeps the page within 1..pages |

## Left out

- The database engine, the image host, the file system, `jwt.verify` and `User.findById` are not modelled as code. The store is sequences on a `Db` object; outside calls are recorded `Effect`s; verification is a token table and user lookup is a set of ids.
- Failures of the image host's destroy call, and exceptions in `countDocuments`/`find`, are not modelled. An upload failure is modelled.
- The error handler behind `next(error)` is not part of this model. A forwarded error is an `Outcome` of its own (a negative skip, a failed upload, a validation error).
- A malformed id (an ObjectId cast error) is not modelled; ids are abstract natural numbers compared by value, as `includes` and `toString()` compare them.
- `BlogController.GetBlogs`: the `$text` search is a `matches` predicate given by the caller, and text-score ranking is not modelled.
- `BlogController.SortKey`: only the numeric fields are sort keys; sorting by a string field (such as `title`) is read as a constant key, so its order is not stated. For equal keys the model picks one stable order. The store does not promise one, and its order may differ between two page queries. So with many equal keys (for example many blogs with 0 likes), pages 1 and 2 can repeat or skip a blog; the model does not capture that.
- `Numbers.ParseInt`: reads base-10 digits after white space and a sign; the `0x` hexadecimal prefix `parseInt` also accepts is not modelled.
- JavaScript numbers are unbounded integers here; floating-point rounding of very large page or limit values is not modelled.
- String lengths count Unicode scalar values; JavaScript counts UTF-16 code units, which differ for characters outside the Basic Multilingual Plane.
- `LikeController.ToggleTouchesOnlyLikes`: the save also moves `updatedAt` (schema timestamps), so a toggle changes three fields, not two.
- Concurrent requests (two toggles interleaving between read and save) are not modelled; each request runs alone.
- `populate` of author details and `select("-password")` are not modelled; a user is its id.
- The comment controller (server-side add, edit and delete of comments) and the user/auth controllers are not part of this model. `commentsCount` is never updated by the modelled code.
- `getRelativeTime`'s clock and `formatDate`'s locale formatting are parameters (`nowMs`, `absolute`); `formatDateForInput` is not modelled.
- `JSON.stringify`/`JSON.parse` of the stored user are taken as exact inverses on user records.
- React rendering, loading flags, scrolling and `window.history` are not modelled. This includes the login page's info message (LoginForm.jsx:23-29).
- BlogList's effect that fetches again when the page changes is not modelled; `Fetch` and `Receive` are separate steps and responses may arrive in any order.
- MyBlogs' `fetchMyBlogs` (MyBlogs.jsx:41-51), the effect that reloads the list and the counts when the tab changes (MyBlogs.jsx:36-39), and `handleDeleteClick` (MyBlogs.jsx:121-125), which opens the confirmation dialog, are not modelled. `Dashboard.blogs` starts empty and is only ever filtered by a delete; loading the list for a tab is not captured.
- MyBlogs' `handleEdit`/`handleView` only navigate and close the menu, so they are not modelled. The `/blogs/my-blogs` endpoint it queries is not part of this model, so the counts are parameters.
- Profile's server call `authAPI.updateProfile` is not part of this model; its answer is a parameter.
- The image file is reduced to its MIME type and size; `URL.createObjectURL` is a parameter.

## Findings

| source | as written | input that shows it | evidently intended | confidence | as-written member | corrected member |
|---|---|---|---|---|---|---|
| frontend/src/components/blog/CommentSection.jsx:182 | `user?._id === comment.author?._id` is true when both ids are missing | a signed-out viewer and a comment whose author was deleted (populated as null) | edit/delete controls only for the signed-in author | not executed; medium (needs a comment without an author) | CommentSection.ControlsShownToSignedOutViewer | CommentSection.OwnsCommentSpec |
| blog-backend/controllers/blogController.js:137-162 | the old cover is destroyed before the new upload and before the document is validated and saved | the author sends a new file with the title "abc" | the old image is released only once the edited blog is saved; a rejected edit releases the new upload instead | not executed; high (validation runs only in `save`) | BlogController.EditLosesCoverOnRejectedTitle | BlogController.EditKeepingCoverSpec |
