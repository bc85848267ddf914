# Product-search row and comment routes, modelled in Dafny

This project models two pieces of decision logic from the WordPress.com
client.

The first is the **product-search row** of the WooCommerce extension
(`client/extensions/woocommerce/components/product-search/row.js`). Each row
has two pieces of component state:

- `showForm`: whether the attribute form is open.
- `variations`: the variations chosen so far.

For a variable product, the user picks attribute options. `updateItem`
resolves those options against the variations the store holds for the
product. It stores a variation only when exactly one matches, de-duplicated
by id. It then reports the product id and every stored variation id to the
parent's `onChange`. `onChange` removes a variation and reports its id.
`toggleCustomizeForm` opens the form, and closes it only when nothing is
selected.

The model is the class `ProductSearchRow.Row`:

- Its fields are `showForm`, `variations` and `events`. `events` is the log of
  ids passed to the parent's `onChange`.
- Its methods are `UpdateItem`, `OnChange` and `ToggleCustomizeForm`.
- `UpdateItem` keeps the source's `forEach` as a loop.
- Each method is specified by pure functions: the attribute matcher, lodash's
  `filter` and `uniqBy`, and the selection fold.
- The lemmas prove what those functions promise.
- `Valid()`, the object invariant, says that the stored ids are unique.

The second is the **comments controller**
(`client/my-sites/comments/controller.js`), modelled as pure functions:

- `sanitizeInt` is modelled on top of a model of `parseInt( s, 10 )`.
  `parseInt` is the global function of section 18.2.5 of ECMA-262, 2015
  edition; its model is in module `JsParseInt`.
- `sanitizeQueryAction` and `mapPendingStatusToUnapproved` are modelled as
  written.
- The route handlers `siteComments`, `postComments`, `comment` and `redirect`
  each map a `Request` to an `Outcome`. An `Outcome` is a redirect, a change
  to page 1, or a render after at most one store dispatch.
- `clearCommentNotices` becomes the list of its effects: the notice removals,
  then `next`.

Inputs that the source takes from elsewhere are parameters here:

- `isProductSelected( value, id )` is an arbitrary predicate.
- The site fragment found by the router is a field of `Request`. `None` stands for `false`; like `false`, an empty fragment counts as missing.
- The feature flag `comments/management/m3-design` is a boolean.
- `page.current` is a string.
- The store's notices are a sequence.

Files: `wrappers.dfy` (Option), `product_search_row.dfy`, `parse_int.dfy`,
`comments_controller.dfy`.

Notes on the code:

- The chosen variations are a list, not a set. After a resolution the ids
  are reported to `onChange` in list order. The model keeps the list.
- `onChange` removes every stored variation with the given id and reports
  that id once.

## Model

| member | source | states |
|---|---|---|
| ProductSearchRow.HasAnyChoice | client/extensions/woocommerce/components/product-search/row.js:103-106 | true iff "any" is among the chosen options |
| ProductSearchRow.Agrees | client/extensions/woocommerce/components/product-search/row.js:112 | an attribute agrees iff the choices map its name to its option; a name without a choice never agrees |
| ProductSearchRow.AttributesAgree | client/extensions/woocommerce/components/product-search/row.js:109-115 | the `&&`-fold over the attributes, started from `true`, is true iff every attribute agrees |
| ProductSearchRow.Matches | client/extensions/woocommerce/components/product-search/row.js:108-116 | a variation matches iff every one of its own attributes agrees with the choices; one with no attributes matches every choice map |
| ProductSearchRow.UnmentionedChoicesIgnored | client/extensions/woocommerce/components/product-search/row.js:108-116 | choice maps that agree on the variation's own attribute names give the same verdict; other keys are ignored |
| ProductSearchRow.MatchingVariations | client/extensions/woocommerce/components/product-search/row.js:108-116 | the filtered list holds exactly the catalog's variations that match, and is no longer than the catalog |
| ProductSearchRow.SingleMatchIff | client/extensions/woocommerce/components/product-search/row.js:107-119 | the filter has length 1 iff exactly one catalog position matches, and its element is then that position's variation |
| ProductSearchRow.ResolveChoices | client/extensions/woocommerce/components/product-search/row.js:101-131 | a choice map resolves to a variation iff no choice is "any" and exactly one catalog position matches; the result is then that variation |
| ProductSearchRow.UniqById | client/extensions/woocommerce/components/product-search/row.js:122 | `uniqBy` by id: the result has unique ids, the same set of ids as the input, and only elements of the input |
| ProductSearchRow.UniqByIdOfUnique | client/extensions/woocommerce/components/product-search/row.js:122 | on a list whose ids are unique, `uniqBy` is the identity |
| ProductSearchRow.AppendUnique | client/extensions/woocommerce/components/product-search/row.js:121-122 | appending and de-duplicating keeps the ids unique; on a unique list it leaves the list alone when the id is present and appends the variation otherwise |
| ProductSearchRow.AppendUniqueIdempotent | client/extensions/woocommerce/components/product-search/row.js:120-123 | storing the same resolved variation twice leaves the list as after once |
| ProductSearchRow.WithoutId | client/extensions/woocommerce/components/product-search/row.js:80 | the filter keeps exactly the entries whose id differs from the removed one |
| ProductSearchRow.WithoutIdAppend | client/extensions/woocommerce/components/product-search/row.js:80 | the filter distributes over concatenation, so it keeps the remaining entries in order |
| ProductSearchRow.WithoutAbsentId | client/extensions/woocommerce/components/product-search/row.js:80 | removing an id that is not stored changes nothing |
| ProductSearchRow.WithoutIdIdempotent | client/extensions/woocommerce/components/product-search/row.js:76-86 | removing the same id twice leaves the list as after the first removal |
| ProductSearchRow.WithoutIdKeepsUnique | client/extensions/woocommerce/components/product-search/row.js:80 | removal preserves unique ids |
| ProductSearchRow.AnySelectedFold | client/extensions/woocommerce/components/product-search/row.js:136-142 | the or-fold over the stored variations is true iff its start value is, or some stored variation id is selected |
| ProductSearchRow.Row.constructor | client/extensions/woocommerce/components/product-search/row.js:44-47 | a new row has the form closed, no stored variations and no reported ids |
| ProductSearchRow.Row.AreAnySelected | client/extensions/woocommerce/components/product-search/row.js:133-143 | true iff the product id or some stored variation id is selected (`IsSelected` is `isProductSelected` applied to the `value` prop and an id) |
| ProductSearchRow.Row.VariationsPanel | client/extensions/woocommerce/components/product-search/row.js:145-166 | the panel is hidden iff the form is closed and neither the product nor any stored variation is selected; shown, it lists one variation row per stored variation, in order |
| ProductSearchRow.Row.InputComponent | client/extensions/woocommerce/components/product-search/row.js:168-184 | a variable product that is not a variation shows a count badge equal to the number of stored variations; every other row shows a radio button (single selection) or a checkbox carrying its id and its selected state; the selected state is `IsSelected`, i.e. `isProductSelected( value, id )` |
| ProductSearchRow.Row.OnChange | client/extensions/woocommerce/components/product-search/row.js:76-86 | removes exactly the entries with the id, keeps the rest in order, reports the id once, leaves the form alone and keeps ids unique |
| ProductSearchRow.Row.ToggleCustomizeForm | client/extensions/woocommerce/components/product-search/row.js:88-99 | closed always opens; open closes iff nothing is selected; only `showForm` may change |
| ProductSearchRow.Row.UpdateItem | client/extensions/woocommerce/components/product-search/row.js:101-131 | with no unique resolution nothing changes and nothing is reported; otherwise the resolved variation is appended de-duplicated and the reported ids are the product id followed by every stored id in order; the form is untouched and ids stay unique |
| ProductSearchRow.ResolvedEventCount | client/extensions/woocommerce/components/product-search/row.js:124-127 | a resolution reports 1 + the number of stored variations ids, the product id first; the list grows iff the id was new |
| ProductSearchRow.VariationRowsGetControls | client/extensions/woocommerce/components/product-search/row.js:149-183 | every row in the variations panel gets a selection control bound to its variation's id and selected state, never a count badge |
| ProductSearchRow.RedChoiceResolvesToEleven | client/extensions/woocommerce/components/product-search/row.js:101-117 | for variations 11 (red) and 12 (blue), red resolves to 11, while green and "any" resolve to nothing |
| ProductSearchRow.RedChoiceScenario | client/extensions/woocommerce/components/product-search/row.js:101-131 | choosing red on a new row of product 1 stores variation 11 and reports 1 then 11 |
| JsParseInt.TrimStart | client/my-sites/comments/controller.js:30 | the result is a suffix of the input; everything dropped is white space, and what remains does not start with white space |
| JsParseInt.DigitPrefix | client/my-sites/comments/controller.js:30 | the result is the longest prefix made only of decimal digits |
| JsParseInt.DecimalString | client/my-sites/comments/controller.js:30 | the decimal rendering of n is a non-empty digit string with no leading zero, and its value is n |
| JsParseInt.DigitPrefixOfDigits | client/my-sites/comments/controller.js:30 | digits followed by text that does not start with a digit: the digit prefix is exactly those digits |
| JsParseInt.ParseSigned | client/my-sites/comments/controller.js:30 | after the white space: a negative result needs a leading minus; a leading digit gives the value of the digit run; anything but a sign or a digit first, and a sign not followed by a digit, give NaN |
| JsParseInt.ParseInt10 | client/my-sites/comments/controller.js:30 | `parseInt( s, 10 )`: white space alone is NaN; a digit first after the white space gives a non-negative number; a negative result needs a minus as the first character after the white space |
| JsParseInt.ParseIntOfDigitsThenRest | client/my-sites/comments/controller.js:30 | digits followed by text that does not start with a digit parse to the value of the digits |
| JsParseInt.ParseIntOfDecimal | client/my-sites/comments/controller.js:30 | parsing a decimal rendering gives back the number |
| JsParseInt.TrimStartSkipsWhiteSpace | client/my-sites/comments/controller.js:30 | trimming a string that has leading white space equals trimming it without |
| JsParseInt.ParseIntSkipsWhiteSpace | client/my-sites/comments/controller.js:30 | leading white space never changes the parse |
| JsParseInt.ParseIntNegative | client/my-sites/comments/controller.js:30 | a minus sign before an unsigned numeral negates its value, and the result is never positive |
| JsParseInt.ParseIntPlus | client/my-sites/comments/controller.js:30 | a plus sign before an unsigned numeral changes nothing: "+7" gives 7, and a lone "+" is NaN |
| CommentsController.MapPendingStatusToUnapproved | client/my-sites/comments/controller.js:27 | never yields "pending"; yields "unapproved" for "pending" and the input otherwise |
| CommentsController.MapPendingStatusIdempotent | client/my-sites/comments/controller.js:27 | mapping twice equals mapping once |
| CommentsController.SanitizeInt | client/my-sites/comments/controller.js:29-32 | the result is absent (`false`) or a strictly positive integer; an absent argument is read through `JsString` as the text "undefined" |
| CommentsController.SanitizeIntOfDecimal | client/my-sites/comments/controller.js:29-32 | every positive integer in decimal sanitises to itself |
| CommentsController.SanitizeIntRefusesNegative | client/my-sites/comments/controller.js:29-32 | any argument starting with a minus sign gives `false` |
| CommentsController.SanitizeIntRefusesNonNumeric | client/my-sites/comments/controller.js:29-32 | an absent argument ("undefined"), the empty string and text starting with anything but white space, a sign or a digit give `false` |
| CommentsController.SanitizeIntRefusesZero | client/my-sites/comments/controller.js:29-32 | zero, written with any number of digits, gives `false` |
| CommentsController.SanitizeIntOfPaddedDecimal | client/my-sites/comments/controller.js:29-32 | leading white space and text after the digits are ignored: " 12px" gives 12 |
| CommentsController.LowerChar | client/my-sites/comments/controller.js:110 | an ASCII capital becomes its small letter, every other character is unchanged, and no capital remains |
| CommentsController.ToLowerAsciiIdempotent | client/my-sites/comments/controller.js:110 | lower-casing twice equals lower-casing once |
| CommentsController.ToLowerAsciiKeepsLowerText | client/my-sites/comments/controller.js:110 | text without ASCII capitals is left unchanged, so each action word is its own lower case |
| CommentsController.SanitizeQueryAction | client/my-sites/comments/controller.js:99-113 | absent or empty gives nothing; otherwise the result is present iff the action lower-cased by `ToLowerAscii` is a valid word, and is then that word's status, one of approved, trash, spam, delete |
| CommentsController.SanitizeQueryActionIgnoresCase | client/my-sites/comments/controller.js:110-112 | an action and its lower-cased form sanitise alike |
| CommentsController.OnlyApproveIsRenamed | client/my-sites/comments/controller.js:104-109 | each valid word sanitises to its status, and the status differs from the word only for "approve" |
| CommentsController.SiteComments | client/my-sites/comments/controller.js:41-65 | a site fragment that fails `HasFragment` (missing or empty, the falsy values) redirects to /comments/all first; then an invalid page goes to page 1; only when both pass does it render, with a positive page, no dispatch and the mapped status; arguments are read with `Arg`, absent keys as `undefined` |
| CommentsController.PostComments | client/my-sites/comments/controller.js:67-97 | checks the fragment (missing or empty redirects to /comments/all), then the post id (redirecting to /comments/<raw status>/<fragment>), then the page; it renders iff all three pass, with the sanitised post id |
| CommentsController.PostCommentsExtendsSiteComments | client/my-sites/comments/controller.js:41-97 | with a valid post id, the post listing decides exactly as the site listing and only adds the post id to the view |
| CommentsController.PostRedirectKeepsRawStatus | client/my-sites/comments/controller.js:70-79 | with a non-empty fragment, the invalid-post redirect carries "pending" as written, not the mapped "unapproved"; with an empty fragment it goes to /comments/all |
| CommentsController.RedirectToAllComments | client/my-sites/comments/controller.js:161-167 | always a redirect under /comments/all: exactly that when the fragment fails `HasFragment` (missing or empty), else followed by "/" and the fragment |
| CommentsController.ActionDispatch | client/my-sites/comments/controller.js:145-151 | "delete" dispatches a delete; any other action dispatches a status change to that action; both carry the site, post and comment ids |
| CommentsController.Comment | client/my-sites/comments/controller.js:126-159 | an invalid comment id or a disabled flag redirects as `redirect` does, with no dispatch; otherwise it renders the comment view, and dispatches iff action, site id and post id all sanitise, exactly the `ActionDispatch` of those values |
| CommentsController.CommentDispatchesValidAction | client/my-sites/comments/controller.js:136-152 | when action, site id and post id sanitise, exactly one dispatch is made for that comment: a delete iff the action is "delete", else a status change to the sanitised action itself, which is a valid status |
| CommentsController.StartsWith | client/my-sites/comments/controller.js:171-175 | lodash `startsWith`: an absent string starts only with the empty prefix; a present one iff its first characters are the prefix |
| CommentsController.CommentNoticeIds | client/my-sites/comments/controller.js:173-178 | an id is collected iff a notice with that id exists and the id starts with "comment-notice" |
| CommentsController.RemoveAllAppend | client/my-sites/comments/controller.js:174-178 | the removals for two lists of ids, one after the other, are the removals for the joined list |
| CommentsController.ClearCommentNotices | client/my-sites/comments/controller.js:169-181 | the effects end with `next` and everything before it is a removal; under /comments nothing is removed; elsewhere exactly the comment notices are removed; the removals are `RemoveAll` of the collected ids, and their order is fixed by ClearCommentNoticesInStoreOrder |
| CommentsController.CommentNoticeIdsAppend | client/my-sites/comments/controller.js:174-178 | the ids of a joined notice list are those of the first part, then those of the second |
| CommentsController.ClearOneNotice | client/my-sites/comments/controller.js:170-180 | outside /comments a single notice is removed iff its id starts with "comment-notice", and `next` follows |
| CommentsController.ClearCommentNoticesInStoreOrder | client/my-sites/comments/controller.js:170-180 | outside /comments the notices of a first part of the store are removed before those of the rest, so removals follow store order |
| CommentsController.NextCalledOnce | client/my-sites/comments/controller.js:180 | `next` occurs once, as the last effect |
| CommentsController.RedirectsKeepNotices | client/my-sites/comments/controller.js:41-181 | every redirect of `siteComments`, `postComments`, `comment` and `redirect` lies under /comments, so arriving there clears no notice |

## Left out

- `componentDidMount` and `componentWillReceiveProps` are not modelled. They only start network fetches through the store. The second one also reads props that do not exist and calls an unbound `fetchProducts`, so it has no behaviour worth specifying.
- The markup of `renderRow`, `renderInputName` and `renderInputImage` is not modelled. Neither are `translate`, `formatCurrency`, `formattedVariationName` and `classNames`. They are presentation or library code. Only the show/hide and count rules of rendering are modelled (`VariationsPanel`, `InputComponent`).
- The store wiring (`connect`, the selectors, `fetchProductVariations`) is not modelled. `props.variations` is an input.
- `isProductSelected` lives in `./utils`, which is not part of this model. It is an arbitrary predicate on the `value` prop and an id.
- `setState` batching and asynchrony are not modelled. Each updater and its callback is one synchronous step.
- `ProductSearchRow.Row.OnChange` takes the id as a number. The `Number( event.target.value )` conversion, and the NaN it can produce, are not modelled.
- `page`, `page.redirect`, `window.scrollTo`, `renderWithReduxStore` and `addQueryArgs` are not modelled. They are navigation and DOM calls. They appear only as the `Redirect`, `ChangePage` and `Render` outcomes.
- The router's `getSiteFragment`, the `isEnabled` feature check and `page.current` are inputs.
- The analytics events, `bumpStat` and `showSuccessNotice` that go with a dispatch are not modelled. `ChangeCommentStatus` and `DeleteComment` stand for the whole dispatched action.
- The `changePage` callback handed to the listing view is not modelled.
- `JsParseInt.ParseInt10` does not model non-string arguments (arrays from repeated query keys) or digit strings beyond 2^53, which JavaScript rounds to a double. Numbers here are unbounded. The value -0 is represented as 0; this makes no difference, because `sanitizeInt` only tests `> 0`.
- Route parameters and query values are modelled as strings only. A repeated query key gives an array in the source. For `query.action` an array is truthy, so `action.toLowerCase()` in `sanitizeQueryAction` throws a TypeError, and `comment` then neither dispatches nor renders. The model has no such input and does not capture the throw.
- `JsParseInt.IsStrWhiteSpaceChar` leaves out U+180E. That character counted as a space separator only under Unicode versions before 6.3.
- `CommentsController.ToLowerAscii` lower-cases ASCII letters only. The only non-ASCII character whose lower case is ASCII is the Kelvin sign (to "k"). None of the four action words contains "k", so the result of `sanitizeQueryAction` does not depend on this.
- `eu-address-fieldset.jsx` and `form-toggle/compact.jsx` are not modelled. They are presentational wrappers with no logic.
