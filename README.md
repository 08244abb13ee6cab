# Annual lottery: a Dafny model of its backend state, card layout and navigation guard

The annual-lottery application runs themed raffles. Its backend keeps a theme table, three
per-theme configuration tables (person, prize, global), the fingerprints of participants who
joined a theme's draw, and password-gated access tokens that expire after 24 hours. Its
frontend lays out up to ten prize cards in rows of five, styles them, and guards navigation
so that a theme's pages are reached only once that theme's password has been verified.

This project models three pieces of that logic and proves what they promise:

- `server.dfy` (module `Server`): the request handlers of `server/index.js` as methods of a
  class `Server`. The class fields are the tables and a clock in milliseconds. Each handler
  is one check-then-act over the tables: issuing tokens after a password check, purging
  expired tokens lazily, looking tokens up, recording fingerprints without duplicates,
  upserting configuration blobs, and deleting a theme with its dependent rows. `Valid()`
  says that theme ids are unique, that (theme, fingerprint) pairs are unique, and that rows
  sit in creation order. Every handler keeps `Valid()`.
- `tables.dfy` (module `Tables`): the relational operations the SQL statements need. This
  means filtering by a condition (`Where`), reversing for `ORDER BY ... DESC`, and pairwise
  row constraints, with lemmas about each.
- `layout.dfy` (module `CardLayout`): `useElementPosition` as a pure function from (total
  count, card index, card size, window size) to an (x, y) offset. The lemmas give the exact
  slot formulas. They also prove that for every count from 1 to 10 each row is an evenly
  spaced strip of columns centred on x = 0.
- `card_style.dfy` (module `CardStyle`): the choices `useElementStyle` makes (class name,
  radius, which colour and which opacity band, border and shadow), and what its hover
  listeners do.
- `router.dfy` (module `Router`): the `router.beforeEach` guard. It is a decision function
  `Decide` plus an imperative `BeforeEach` that updates a `ThemeStore` object.
- `wrappers.dfy` (module `Wrappers`): `Option`, JavaScript truthiness of an optional string,
  and `x || ''`.

Two facts about the code that the model keeps:

- For 7 and 9 cards the first five cards are placed as for 5 cards; only the second row is
  shifted by half a step (`FirstRowOfTwoUnshifted`, src/hooks/useElement.ts:97).
- The list, get and create replies omit the password (`ThemeSummary` has no password field);
  the update reply (`SELECT *`, server/index.js:182) includes it, so `UpdateTheme` returns a
  full `Theme`.

## Model

| member | source | states |
|---|---|---|
| `Wrappers.OrEmpty` | server/index.js:162 | a present, non-empty field is kept; an absent or empty one becomes "" |
| `Server.FindTheme` | server/index.js:96 | finds a row exactly when some theme has the id, and the row found has that id |
| `Server.FindFingerprint` | server/index.js:360-362 | finds a row exactly when the (theme, fingerprint) pair is recorded, and the row found carries that pair |
| `Server.PurgeExpired` | server/index.js:25-28 | exactly the rows with expires_at < now are deleted, across all themes; every other row stays, with its multiplicity |
| `Server.IssuedRow` | server/index.js:109-117 | a new token's row expires 24·3600·1000 ms after it was created |
| `Server.PurgeKeepsAcceptance` | server/index.js:138-147 | purging before the lookup never changes the lookup's answer |
| `Server.TokenLookup` | server/index.js:142-147 | the verify-token SELECT returns a row exactly when some row has that theme and token and expires strictly after now |
| `Server.ExpiryInstant` | server/index.js:27 | a row expiring exactly now survives the purge (strict <) but is rejected by the lookup (strict >) |
| `Server.IssuedTokenLifetime` | server/index.js:109-117 | an issued token is accepted at every instant before issue + 24 h; from then on its row adds nothing to the answer |
| `Server.RecordedJoinIsFound` | server/index.js:360-370 | right after a (theme, fingerprint) row is appended, the pre-check finds it, so the next record of the same pair is refused |
| `Server.NewJoinKeepsPairsUnique` | server/index.js:360-376 | appending a row whose pair is not yet recorded keeps all (theme, fingerprint) pairs unique |
| `Server.Server.Tick` | server/index.js:26 | the clock only moves forward (new Date() per request), and the table invariants hold at the later time |
| `Server.Server.ListThemes` | server/index.js:69-76 | every theme, without its password, newest first |
| `Server.Server.GetTheme` | server/index.js:79-89 | nothing (404) exactly when no theme has the id; otherwise that theme without its password |
| `Server.Server.CreateTheme` | server/index.js:154-169 | appends one row with a missing description or password stored as ""; replies without the password; ids stay unique |
| `Server.Server.UpdateTheme` | server/index.js:172-187 | changes name, description and updated_at of the rows with that id and nothing else; replies with the full row, password included, or nothing for an unknown id |
| `Server.Server.DeleteTheme` | server/index.js:190-216 | 404 for an unknown theme; 403 when the stored password is non-empty and differs; otherwise removes the theme row and all its person, prize, global and fingerprint rows, and nothing else; access tokens are untouched |
| `Server.Server.VerifyPassword` | server/index.js:92-126 | 404 and no change for an unknown theme; valid:false and no change on a mismatch; on a match, purges expired tokens and adds exactly one row (theme, token, now + 24 h, now); earlier tokens are not revoked |
| `Server.Server.VerifyToken` | server/index.js:129-151 | a missing or empty token is refused with no change; otherwise purges expired tokens, and the answer is whether some row of that theme holds the token and expires strictly after now, both before and after the purge |
| `Server.Server.GetConfig` | server/index.js:221-231 | the stored blob, or null when the theme has no row; the prize (259-269) and global (297-307) reads are the same handler on another table |
| `Server.Server.SaveConfig` | server/index.js:234-254 | upsert: afterwards the theme has one row holding the new blob; other themes' rows and the other two tables are unchanged; the prize (272-292) and global (310-330) saves are the same |
| `Server.Server.CheckFingerprint` | server/index.js:335-350 | a row is returned exactly when the pair is recorded, and it is a recorded row with that pair |
| `Server.Server.RecordFingerprint` | server/index.js:353-382 | already_joined and no change when the pair exists; otherwise exactly one row is appended; pairs stay unique |
| `Server.Server.ListFingerprints` | server/index.js:385-394 | exactly the theme's rows, each once, newest first |
| `Server.Server.DeleteFingerprintsByName` | server/index.js:397-407 | removes exactly the rows of that theme with that person name |
| `CardLayout.Position` | src/hooks/useElement.ts:87-120 | useElementPosition branch by branch: centre, unshifted slots, half-step-shifted slots; its properties are the lemmas below |
| `CardLayout.CeilHalf` | src/hooks/useElement.ts:104 | Math.ceil(k / 2): the least r with k <= 2r |
| `CardLayout.RowHeight` | src/hooks/useElement.ts:90-105 | y = H/2 − h/2 − floor(i/5)·(h + 60) in every branch; it does not depend on the total count |
| `CardLayout.SlotOffsets` | src/hooks/useElement.ts:94-118 | unshifted x is 0 for slot 0, +ceil(k/2)·(w+100) for even k and −ceil(k/2)·(w+100) for odd k; the shifted x is that plus (w+100)/2; the shift applies exactly for counts 2, 4, 7, 9, but not to the first row when there are two rows |
| `CardLayout.MirroredSlots` | src/hooks/useElement.ts:98-106 | in an unshifted row, slots 1 and 2, and slots 3 and 4, are mirror images |
| `CardLayout.FirstRowOfTwoUnshifted` | src/hooks/useElement.ts:95-97 | with 7 or 9 cards the first five are placed exactly as with 5 cards; only the second row is shifted |
| `CardLayout.ShiftIffEvenRow` | src/hooks/useElement.ts:94-97 | for 1 to 10 cards, a card is shifted exactly when its row holds an even number of cards |
| `CardLayout.SlotOnStrip` | src/hooks/useElement.ts:98-117 | slot k of a row of m cards, shifted when m is even, lands on a column of the strip of m evenly spaced columns centred on 0 |
| `CardLayout.CardOnStrip` | src/hooks/useElement.ts:87-120 | for 1 to 10 cards, every card lies on a strip column of its row |
| `CardLayout.RowIsStrip` | src/hooks/useElement.ts:84-120 | for 1 to 10 cards, the x-offsets of each row are exactly the columns of an evenly spaced strip centred on x = 0 |
| `CardLayout.RowsCentred` | src/hooks/useElement.ts:84-120 | for 1 to 10 cards, the x-offsets of each row form a set symmetric about 0 |
| `CardLayout.StripSymmetric` | src/hooks/useElement.ts:94-118 | column j and column m−1−j of a strip are mirror images |
| `CardLayout.RowSlotsApart` | src/hooks/useElement.ts:98-118 | two different cards of one row are at least w + 100 apart, so they never overlap |
| `CardStyle.Style` | src/hooks/useElement.ts:4-30 | a card gets the resting border and shadow of its mode (gold 2px border and gold shadow for a winner, card-colour 1px border and shadow otherwise), class 'lucky-element-card' and radius 16 exactly for a winner, else 'element-card' and 12; the pattern colour is used exactly when index+1 is in patternList and the mode is default, so never in sphere mode; its opacity lies in [0.8, 1.0), other non-winner cards' in [0.2, 0.6); winner cards have card colour at 0.85 and a gold border |
| `CardStyle.OnEnter` | src/hooks/useElement.ts:34-43 | the mouseenter listener: a gold 12/40 shadow for a winner card, a stronger card-colour border and shadow otherwise |
| `CardStyle.OnLeave` | src/hooks/useElement.ts:44-53 | the mouseleave listener: puts back the resting border and shadow of the mode |
| `CardStyle.AfterHover` | src/hooks/useElement.ts:33-54 | the look after a series of hover events; listeners exist only for an 'add' call |
| `CardStyle.LuckyLookFixed` | src/hooks/useElement.ts:8-16 | a winner card is 'lucky-element-card' with radius 16 and looks the same whatever its index, the pattern list or the random draw |
| `CardStyle.OrdinaryLook` | src/hooks/useElement.ts:17-19 | every other card is 'element-card' with radius 12 |
| `CardStyle.LeaveUndoesEnter` | src/hooks/useElement.ts:33-54 | mouseleave restores exactly the border and shadow set for that mode, so enter then leave changes nothing |
| `CardStyle.HoverSettles` | src/hooks/useElement.ts:32-54 | listeners react only when type is 'add'; after any series of hover events the card is back in its styled look if the last event was mouseleave, and in the entered look if it was mouseenter |
| `CardStyle.StyledCardSettles` | src/hooks/useElement.ts:4-54 | whatever hover events a freshly styled card receives, after a final mouseleave it looks exactly as useElementStyle styled it |
| `Router.Decide` | src/router/index.ts:168-212 | the guard's decision, one branch per branch of the source: Entry, legacy home, URL theme, stored theme, none |
| `Router.BeforeEach` | src/router/index.ts:168-212 | the verdict and the new current theme are those of `Decide`; each branch calls next once |
| `Router.EntryAdmitted` | src/router/index.ts:170-173 | navigation to Entry always proceeds and changes nothing |
| `Router.LegacyHomeRedirected` | src/router/index.ts:176-179 | path /home or name Home is redirected to Entry with an empty query, whatever is verified |
| `Router.UrlTheme` | src/router/index.ts:182-196 | an unverified URL theme redirects to Entry with {redirect: fullPath, themeId} and leaves the store alone; a verified one becomes the current theme and proceeds |
| `Router.StoredTheme` | src/router/index.ts:198-211 | with no URL theme: an unverified current theme redirects to Entry with {themeId} only; a verified one proceeds; no current theme redirects to Entry; the store never changes |
| `Router.RedirectsSettle` | src/router/index.ts:168-212 | every redirect targets Entry and leaves the store alone, and Entry is admitted, so a redirected navigation completes after one extra hop |
| `Router.ProceedNeedsVerifiedTheme` | src/router/index.ts:168-212 | a page other than Entry is reached only with a verified current theme, and the store only switches to the verified theme named in the URL |

## Left out

- Express, cors, JSON body parsing, static serving and `app.listen` (server/index.js:1-64, 446-448) are framework glue. A handler's reply is a value, and the 500 replies for thrown errors are not modelled.
- The image upload and delete handlers (server/index.js:31-58, 412-444) are disk I/O and a multipart library: filenames from `Date.now`/`Math.random`, the MIME filter, `existsSync`/`unlinkSync`.
- The token text from `crypto.randomBytes` (server/index.js:20-22) is a parameter, `freshToken`, of `VerifyPassword`.
- Configuration blobs are opaque strings. `JSON.stringify` and `JSON.parse` are not modelled.
- Time is integer milliseconds. The SQL comparisons of ISO date strings (lines 27, 144) are taken to order like the instants they denote.
- Each handler reads the clock once. The source reads `new Date()` separately for the purge and for the lookup.
- The clock never goes back (`Tick` takes a natural number), so creation order is insertion order. `ListThemes` and `ListFingerprints` return one of the orders `ORDER BY created_at DESC` allows: among rows with equal timestamps, the newest insertion comes first.
- `Server.Server.CreateTheme`: requires that the id is not yet used. What the schema does with a duplicate id is decided by db.js, which is not part of this model.
- `Server.Server.RecordFingerprint`: calls are sequential. The race between two concurrent identical submissions (check, then insert) is not modelled.
- Body fields that the code passes straight to SQL (`name`, `fingerprint`) are strings. The model does not cover a request that leaves them out.
- `decodeURIComponent` of the person name in the delete-by-name route is not modelled. The method receives the decoded name.
- The layout described in the TODO at src/hooks/useElement.ts:86 (6 as 3+3, 7 as 3+4, ...) is not what the code does. The model has the code's rows of five.
- `CardLayout.Position` drops the unused `element` and `count` arguments. Card indices are natural numbers.
- `useElementStyle`'s DOM writes of sizes, font sizes, text content, innerHTML and avatar (src/hooks/useElement.ts:6-7, 56-79), and the `rgba` helper, are not modelled. A colour is kept as its source (card colour, pattern colour, gold) with its opacity. The `Math.random` draw is a parameter in [0, 1).
- `CardLayout.Position` and `CardStyle.Style` compute with exact reals: the IEEE double rounding of JavaScript numbers in the offsets (src/hooks/useElement.ts:101-116) and in the opacity bands `Math.random() * 0.2 + 0.8` and `* 0.4 + 0.2` (lines 22, 25) is not modelled.
- Listeners added by earlier `'add'` calls on the same element are not modelled. The hover model covers the listeners of one call.
- The theme store and `isThemeVerifiedSync` are reduced to a current-theme field and a set of verified theme ids. `selectTheme` only sets the current theme.
- Router history creation, lazy component imports and the static route table with its redirect entries (src/router/index.ts:6-163) are vue-router configuration, not logic of this program.
- src/locales/i18n.ts is a static message table with a `navigator.language` read.
