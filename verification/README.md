# Content generator: auth services, content history and dashboard logic

A Dafny model of the stateful and pure logic of the content-generation web app.

- **Node auth service** (`server.js`, module `NodeAuth`). Users live in an append-only list. Sign-up refuses a duplicate email, gives the new user the id `length + 1` and issues a token carrying `{userId}`. Log-in checks the password against the stored hash. Validate takes the token from `Authorization` as `split(' ')[1]` and resolves `userId` against the list again.
- **Flask auth service** (`app.py`, module `FlaskAuth`). It follows different conventions:
  - users are a map keyed by email;
  - the fields are required and falsy counts as missing;
  - sign-up answers 201;
  - the token identity is the email;
  - a vanished user on validate answers 404.
- **Flask content generator** (`app.py`).
  - Module `ContentGeneration` holds the pure helpers: the Unsplash image URL, the thumbnail prompt, the `max_length` table, `WxH` size parsing, the rule that appends image markdown, and the keyword phrase.
  - Module `ContentHistory` holds the generate endpoint, the history bounded to 50 items, and lookup by id.
- **Dashboard** (`src/components/ContentDashboard.jsx`, module `Dashboard`). It covers:
  - keyword parsing and its inverse, the `", "` join;
  - the wizard step clamped to [0, 3];
  - the client-side image rule;
  - the additional-parameter map.
- **Integration** (module `Integration`). Lemmas about what the dashboard sends and what the generator does with it.

Supporting modules hold the general pieces:

- `Wrappers` (`Option`) and `Seqs` (first-match search).
- `Strings`: JavaScript and Python whitespace sets, trim, split and join, ASCII lower-casing, and `replace` of one character.
- `Decimal`: Python `int()` on strings.
- `Uri`: `encodeURIComponent` with its UTF-8 percent-decoding inverse.
- `Json`: JSON values and Python truthiness.

bcrypt and JSON Web Tokens are not modelled. Every operation takes them as a parameter `Crypto.Primitives` (hash, compare, sign, verify), and the properties are proved for any primitives that satisfy `Crypto.Sound`:

- a password compares equal to its own hash;
- a token verifies to the claims it was signed with;
- a signed token is non-empty and free of spaces.

Several inputs are parameters instead of being computed:

- the bcrypt salt;
- the token issue time;
- the generated text;
- the uuid and timestamp of a history item.

## Model

| member | source | states |
|---|---|---|
| NodeAuth.Signup | server.js:21-61 | A duplicate email (exact `===` match, absent email included) gives 400 `User already exists` and leaves the store as it was. A missing password makes hashing fail, giving 500 `Error creating user`. Otherwise the store grows by exactly one record at the end with id old length + 1, every earlier record is unchanged, and the response carries a token signed over `{userId}` and the new user's `{id, fullName, email}`. |
| NodeAuth.Login | server.js:63-98 | The status is 200, 401 or 500. 401 holds exactly when the email is unknown or the password does not match the stored hash, and both cases give the identical response `Invalid credentials`. 500 holds exactly when the user exists but the password is absent. 200 holds exactly when the user exists and the password matches; the token then carries the found user's id and the body carries that user's summary. |
| NodeAuth.ExtractToken | server.js:103-107 | An absent header gives no token. Any token found is non-empty and space-free. |
| NodeAuth.ExtractTokenCharacterised | server.js:103-104 | Without reference to `split`: a token `t` is found exactly when the header is a space-free word, one space, `t` (non-empty, no space), then the end or a space. |
| NodeAuth.ExtractNoSpace | server.js:103-107 | A header without a space, such as `Bearer`, gives no token. |
| NodeAuth.ExtractEmptyField | server.js:103-107 | A header whose second space-separated field is empty gives no token: `Bearer ` and `Bearer  <token>` with a doubled space both fail. |
| NodeAuth.ExtractBearer | server.js:103 | `Bearer <token>` yields the token. |
| NodeAuth.Validate | server.js:100-127 | The status is 200 or 401. `No token provided` exactly when no token is extracted. Otherwise every failure (bad signature, no `userId`, no such user) is 401 `Invalid token`. 200 holds exactly when the token verifies to a `userId` held by a record, and the body is that record's `{id, fullName, email}`. |
| NodeAuth.FindByIdValid | server.js:110 | In a valid store the user with id k is the one at index k-1. |
| NodeAuth.SignupKeepsValid | server.js:27-43 | Sign-up preserves the store invariant: ids are 1, 2, 3, ... in order and emails are pairwise distinct. |
| NodeAuth.SignupThenValidate | server.js:47-122 | The token sign-up issues, sent as a bearer header, validates to exactly the new user's summary. |
| NodeAuth.LoginThenValidate | server.js:83-122 | The token log-in issues validates to exactly the logged-in user's summary. |
| NodeAuth.SignupThenLogin | server.js:33-80 | After a successful sign-up, log-in with the same email and password succeeds and names the same user. |
| NodeAuth.FirstUserScenario | server.js:21-98 | The first user gets id 1. A second sign-up with the same email is refused and changes nothing. A wrong password is refused with 401. The right password logs the same user in. |
| NodeAuth.Run | server.js:15-43 | Handling a sequence of requests yields one response per request, and the old store is always a prefix of the new one. |
| NodeAuth.RunKeepsValid | server.js:27-43 | Every sequence of sign-up, log-in and validate requests keeps the store invariant. |
| FlaskAuth.Signup | app.py:550-586 | A missing or empty email, password or fullName gives 400 `Missing required fields` with the map unchanged. A known email gives 400 with the map unchanged, and with all fields present the body is `User already exists`. 201 holds exactly when all fields are present and the email is new. Then the map gains exactly that key, holding the hash and name, and all other entries are unchanged. |
| FlaskAuth.Login | app.py:588-619 | The status is 200, 400 or 401. Missing fields give exactly 400 `Missing email or password`. 401 `Invalid credentials` holds exactly when the fields are present and the email is unknown or the password does not match. 200 holds exactly when the fields are present, the email is known and the password matches; it carries a token for the email and the stored full name. |
| FlaskAuth.Validate | app.py:621-638 | 404 `User not found` holds exactly when the identity is not a key. Otherwise the result is 200 with `{email, fullName}`. |
| FlaskAuth.SignupThenValidate | app.py:574-634 | The sign-up token verifies to the email, and validating it returns the new user's `{email, fullName}`. |
| FlaskAuth.SignupThenLogin | app.py:565-615 | After sign-up, log-in with the same credentials succeeds with a token for the email. |
| ContentGeneration.GenerateImage | app.py:383-413 | An error (`No prompt provided ...`) holds exactly when the prompt is empty. Otherwise the request is echoed and the URL is `https://source.unsplash.com/<dims>/?` followed, character by character, by the prompt with each space turned into `+`, then `+style` when the style is non-empty and not `realistic`, and nothing else. |
| ContentGeneration.Dimensions | app.py:391-395 | `small` maps to 640x360 and `large` to 1280x720. Every other size maps to 800x450. |
| ContentGeneration.ImageSearchDecodes | app.py:389-400 | Form-decoding the search part gives the prompt, then ` style` when the style is non-empty and not `realistic`, for text without `+`. |
| ContentGeneration.ImageUrlDecodes | app.py:389-400 | For a prompt and style without `+`, reading `+` back as a space in the query gives the prompt, followed by ` style` when the style is non-empty and not `realistic`. |
| ContentGeneration.ImageUrlHasNoSpace | app.py:389-400 | The URL contains no space when the style contains none. |
| ContentGeneration.ThumbnailPrompt | app.py:66-87 | A non-empty custom prompt is returned unchanged. Otherwise the result is the prompt of the lower-cased style, falling back to `clickbait`, and always one of the seven prompts. |
| ContentGeneration.ThumbnailPromptIgnoresCase | app.py:87 | The style lookup does not depend on letter case. |
| ContentGeneration.MaxLength | app.py:147-151 | An absent `length` gives 500. Otherwise `short` gives 300 and `long` gives 800 (any case), and any other string gives 500. A non-string `length` gives no budget. |
| ContentGeneration.ParseSize | app.py:695-703 | Both sides are at most 512. A size that does not split into two parts at `x`, or whose parts are not both integers, gives 512 by 512. |
| ContentGeneration.ParseSizeOfRendered | app.py:697-701 | `WxH` or `WXH` with decimal sides gives `(min(W,512), min(H,512))`. |
| ContentGeneration.ParseSizeOfParts | app.py:697-701 | Two parts that `int()` accepts give `(min(w,512), min(h,512))`. A side below 512, a negative one included, is kept unchanged, because the cap is an upper bound only. |
| ContentGeneration.ParseSizeOfSeparatorSide | app.py:696-702 | A side containing one of the ASCII separators U+001C to U+001F, even at its end, makes `int()` raise, so the size falls back to 512 by 512. |
| ContentGeneration.AppendImage | app.py:485-488 | The content is always a prefix of the result. Markdown is added exactly when there is a URL, the stripped content does not end in a code fence, and the content has no `![`. The added markdown contains `![`. |
| ContentGeneration.AppendImageIdempotent | app.py:485-488 | Applying the rule twice is applying it once. |
| ContentGeneration.KeywordPhrase | app.py:191 | No keywords gives `this topic`. Otherwise the phrase begins with the first keyword. |
| ContentGeneration.KeywordPhraseFirstThree | app.py:191 | Keywords after the third do not change the phrase. |
| ContentHistory.Remember | app.py:503-507 | A history within 50 stays within 50. Below 50 the item is simply appended. The length grows by at most one, the new item is last, and the rest is the newest part of the old history, in the same order. |
| ContentHistory.RememberAllKeepsLast | app.py:503-507 | Starting within the bound, any number of appends leaves exactly the newest 50 of all items, oldest first. |
| ContentHistory.RememberAllBounded | app.py:503-507 | After any number of appends the history holds at most 50 items and the newest is last. |
| ContentHistory.FindContent | app.py:653-655 | A hit has the requested id and no earlier entry has that id. There is no hit exactly when no entry has the id. |
| ContentHistory.RememberThenFind | app.py:503-507 | After remembering an item whose id no entry carries, looking that id up returns 200 with the item. |
| ContentHistory.GetContentById | app.py:650-659 | 404 `Content not found` holds exactly when no entry has the id. Otherwise the result is 200 with the first entry of the history carrying that id. |
| ContentHistory.GeneratedItem | app.py:476-502 | The stored item carries the id, topic, timestamp, tone, content type and keywords it is given. It has an image exactly when one is requested, and that image is the one made from the topic, the keywords and the style and size parameters. With an image the content is the text after the image rule; without one it is the text itself. |
| ContentHistory.Generate | app.py:460-517 | An empty or absent topic gives exactly 400 `Topic is required`. A non-string `length` gives 500. In both cases the history is unchanged. On 200 the history is the old one with one item remembered, carrying the id, topic and timestamp. The response content is the stored content and starts with the generated text. An image URL is returned exactly when `generate_image` is absent or truthy. The stored tone, content type and keywords default to `professional`, `blog` and `[]`. A stored image is the one made from the request, the returned URL is its URL, and the stored content is the text after the image rule, or the text itself when no image was requested. |
| ContentHistory.GenerateShowsImage | app.py:478-488 | With an image requested and text lacking `![` and a closing fence, the content is the text followed by the markdown of the returned Unsplash URL. |
| ContentHistory.GenerateThenLookup | app.py:493-655 | With a fresh id, looking up the id after generating returns the stored item with the returned content. |
| Dashboard.ParseKeywords | src/components/ContentDashboard.jsx:225-227 | The empty field gives `[]`. Every keyword is non-empty, trimmed and comma-free. |
| Dashboard.ParseJoinKeywords | src/components/ContentDashboard.jsx:214-227 | Parsing well-formed keywords joined with `", "` gives them back. |
| Dashboard.LoadKeywords | src/components/ContentDashboard.jsx:209-218 | Without a stored list the field is kept. With a well-formed stored list, parsing the loaded field gives that list back. |
| Dashboard.NextStep | src/components/ContentDashboard.jsx:348-350 | Below 3 the step advances by exactly one. It never exceeds 3 and stays at 3 once there. |
| Dashboard.BackStep | src/components/ContentDashboard.jsx:352-354 | Above 0 the step goes back by exactly one. It never drops below 0 and stays at 0 once there. |
| Dashboard.Walk | src/components/ContentDashboard.jsx:348-354 | From a step in [0,3], any sequence of next and back stays in [0,3]. |
| Dashboard.StepsInverse | src/components/ContentDashboard.jsx:348-354 | Back undoes next below 3, and next undoes back above 0. |
| Dashboard.EnsureImage | src/components/ContentDashboard.jsx:279-283 | Content with `![` is unchanged. Otherwise the result is the content followed by `\n\n![Generated Image](https://source.unsplash.com/800x400/?q)`, where `q` percent-decodes to the UTF-8 bytes of the topic; the result contains `![`. |
| Dashboard.EnsureImageIdempotent | src/components/ContentDashboard.jsx:279-283 | Applying the rule twice is applying it once. |
| Dashboard.ChangeContentType | src/components/ContentDashboard.jsx:321-324 | The type is set and the parameter map is empty. |
| Dashboard.SetParam | src/components/ContentDashboard.jsx:326-331 | The key set gains the name, the name maps to the value, and every other key keeps its value. |
| Dashboard.SubmitParams | src/components/ContentDashboard.jsx:238-242 | The user's parameters are kept, except that `length` is replaced by its lower-cased value and `generate_image` is set to true. |
| Uri.DecodeEncode | src/components/ContentDashboard.jsx:282 | Percent-decoding `encodeURIComponent(s)` gives the UTF-8 bytes of `s`. |
| Uri.EncodeUriComponent | src/components/ContentDashboard.jsx:282 | The output consists of unreserved characters and `%` only. A string of unreserved characters is returned unchanged. |
| Decimal.ParseIntOfNatToString | app.py:698 | Python `int()` reads the decimal rendering of n back as n. |
| Decimal.ParseIntOfNegated | app.py:698 | Python `int()` reads `-` followed by the rendering of n as -n. |
| Decimal.ParseIntRejectsSeparator | app.py:698 | `int()` raises on text containing U+001C to U+001F anywhere. It strips only ASCII `\t\n\v\f\r` and space and non-ASCII whitespace, so these separators survive even at the ends, where `strip()` would remove them. |
| Integration.KeywordPhraseParses | app.py:191 | Typed into the dashboard's keyword field (src/components/ContentDashboard.jsx:225-227), the keyword phrase parses back to the first three keywords. |
| Integration.SubmittedLengthBudget | app.py:147-151 | The `length` the dashboard sends always selects a budget, and the budget is 300 or 800 exactly when the lower-cased name is `short` or `long`. |
| Integration.SubmittedParamsRequestImage | app.py:478 | The parameters the dashboard sends always pass the `generate_image` test. |
| Integration.DashboardRequestSucceeds | app.py:460-515 | A request the dashboard builds, with string-valued parameters and a non-empty topic, gets 200 with an image URL, and its id is recorded last in the history. |
| Integration.GeneratedImageKept | src/components/ContentDashboard.jsx:279-283 | Content to which the server appended its image passes the dashboard's image rule unchanged. |

## Left out

- Real bcrypt and JWT cryptography, token expiry (the `timedelta` in `app.py`) and secret handling: these are the abstract `Crypto.Primitives` under the `Crypto.Sound` assumptions.
- HTTP routing, CORS, JSON body parsing and the logging calls: I/O plumbing.
- The race between the duplicate check and the insert when requests overlap: the model handles requests one after another.
- `flask_jwt_extended`'s own answers on `/api/auth/validate`: library code. By default it answers 401 for a missing or expired token and 422 for a malformed or invalid one. `FlaskAuth.Validate` starts from the identity the library extracted.
- The internal-error branches of the Flask auth handlers (500 `Internal server error`). They are reached by the exceptions in the `FlaskAuth.Signup and FlaskAuth.Login` line below. They are also reached when the email is a JSON array or object: such an email is truthy but unhashable, so `email in users` and `users.get(email)` raise `TypeError`.
- Outbound calls: OpenAI, Hugging Face, Unsplash fetches, scraping, the zip download, PIL, and the video and music placeholders. The generated text is a parameter of `ContentHistory.Generate`.
- The demo content templates, and the `datetime`/`uuid` values, which depend on time and randomness: the id and timestamp are parameters.
- `/api/history`, which returns the whole history unchanged.
- ContentHistory.Generate: the generated text is a parameter, so the model assumes the text generator succeeds. In demo mode the generator builds every template up front, and `.title()` on a non-string `platform` parameter raises (app.py:267). The fallback call that does this sits outside any `try`, so the endpoint answers 500 with the history unchanged; the model answers 200. The 500 for a non-string `length` carries Python's exception text, which the model replaces with the stand-in `LengthNotString`. A request field is a string, `keywords` a list of strings and `additional_params` an object, or the field is absent. JSON `null` and other JSON types are not modelled, and they behave differently in the source. A `null` `topic` is falsy and gets the same 400 as an absent one. A truthy non-string `topic` such as `5`, or a `null` or non-string `tone`, makes `.title()` raise on the demo path (app.py:194). A `null` `keywords` makes `', '.join` raise (app.py:116), and a `null` `additional_params` makes `.get` raise (app.py:118). Each of these raises inside the endpoint's `try`, so the source answers 500 where the model answers 200. A `null` `content_type` gets 200 in the source, which stores `null` where the model stores `blog`. Non-string keywords are not modelled. A non-string `image_style` or `image_size` reads as its default in the model. In the source, a truthy non-string style makes `"+" + style` raise inside `generate_image`, and an unhashable size makes the dimensions lookup raise. `generate_image` then returns an error object, so no image is added and the response carries no URL (app.py:398-399, 411-413).
- ContentGeneration.ParseSize: the parsed width and height are computed but never used by the request, so only the parse itself is modelled.
- Uri.EncodeUriComponent and Dashboard.EnsureImage: a JavaScript string is UTF-16 and may hold a lone surrogate. On one, `encodeURIComponent` throws `URIError`, and the dashboard's `catch` shows an error instead of the content. Dafny characters are Unicode scalar values, so the model has no such topic.
- Strings.Lower: ASCII only. Python's `str.lower` and JavaScript's `toLowerCase` also map non-ASCII letters.
- Decimal.ParseInt: its whitespace set follows CPython's `int()`, which is narrower than `str.isspace`. ASCII digits only, where Python `int()` also accepts other Unicode decimal digits. CPython's limit on decimal strings (4300 digits by default, since 3.11 and in the 3.7-3.10 security releases) is not modelled. Past it `int()` raises, so a size side with more digits gives 512x512 in `app.py`, while `ContentGeneration.ParseSizeOfParts` keeps the number. `Decimal.ParseIntOfNatToString` and `Decimal.ParseIntOfNegated` hold in CPython only up to that length.
- The password hash never appearing in a response holds by construction: the summary types carry no hash field. It is not stated as a separate lemma.
- The other React files (`App.jsx`, `Dashboard.jsx`, `AccountSettings.jsx`, the auth forms) and `src/utils/animations.js`: UI state, DOM events and floating-point transforms.
- The dashboard's network calls, timeouts, clipboard, file download and JSX rendering; `tone.toLowerCase()` in the request body is not modelled.
- NodeAuth.Signup and NodeAuth.Login: a request field is a string or absent. JSON `null`, which `===` tells apart from an absent field, is not modelled. A non-string password, on which bcryptjs throws and the handler answers 500, is not modelled either.
- FlaskAuth.Signup and FlaskAuth.Login: a request field is a string or absent, and other JSON types are not modelled. A non-string email or fullName behaves differently in the source: `0` and `false` count as missing, a number such as `5` is stored under an integer key, and an array or object makes the handler answer 500. A non-string password, on which `password.encode` raises and the handler answers 500, is not modelled. Neither is the `ValueError` that recent releases of the Python `bcrypt` package raise for passwords over 72 bytes, which also ends in 500. The hash and compare functions are abstract and never fail.
- Json.Value: only the JSON scalars null, booleans, integers and strings. Floats, arrays and objects are not modelled, so `generate_image` values such as `0.0`, `[]` or `{}`, all falsy in Python, are outside `ContentHistory.ImageRequested`.
