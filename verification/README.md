# Post collection and login gate of the cncmembros admin panel

This project models the logic in `script.js` of a small browser-only content
site. The site has a public page that lists posts, a login form checked
against one fixed pair of credentials, and an admin panel. The panel adds,
edits and deletes posts in an in-memory collection. The model covers the
following:

- **Posts** (`posts.dfy`). The collection is a `seq<Post>`. The model covers
  lookup by id (`find` / `findIndex`), adding a post under the next free
  numeric id, updating the first post that has the submitted id, and
  deleting every post with an id once the user confirms. It also covers the
  post form that sends either an add or an update, and `editPost`, which
  fills the form from a post.
- **Decimal ids** (`decimal.dfy`). Post ids are strings. The new id is
  computed from `parseInt` of the existing ids and turned back into a string
  with `String(n)`. `Decimal.Value` is `parseInt` on a string of decimal
  digits. `Decimal.Show` is `String(n)` on a natural number. The two are
  proved inverse on canonical numerals.
- **Store** (`store.dfy`). `initializeData` replaces both collections
  (posts and downloads) with the fetched fixture, or with empty collections
  when the fetch fails. `showFullPost` first loads the data if no post is
  held, then looks the post up.
- **Session** (`session.dfy`). Session storage is a `map<string, string>`.
  The login flag is the string `"true"` or `"false"` under the key
  `isLoggedIn`. The model covers the login form's fixed-credential check,
  logout, and the admin-page gate.
- **Panel** (`panel.dfy`). The panel is a state machine: each action is a
  form submission or a delete, confirmed or not. Every step, and every run
  of steps, keeps ids numeric and pairwise distinct.

Four behaviours of the code worth noting:

- The script persists nothing: the collections live only in page memory.
- Submitting a form with an id that no post has does nothing; it does not
  append.
- Deleting removes every post with the id, not just one.
- Unique ids are not enforced when data is loaded. The model proves that
  the panel's operations keep ids unique once they are unique (`Panel.Run`).

## Model

| member | source | states |
|---|---|---|
| Decimal.Value | script.js:182 | `parseInt` on a non-empty string of decimal digits: its base-10 value, with leading zeros ignored |
| Decimal.Show | script.js:182 | `String(n)` of a natural number is a numeral with no leading zero, and `parseInt` reads it back as `n` |
| Decimal.ShowValue | script.js:182 | for a numeral with no leading zero, `String(parseInt(s))` gives back `s`, so the two conversions are inverse |
| Decimal.CanonicalValueInjective | script.js:182 | two canonical numerals are the same string exactly when they denote the same number |
| Posts.FindIndex | script.js:175 | returns the first position holding the id, with no earlier position holding it, and returns nothing exactly when no post holds the id |
| Posts.Find | script.js:196 | returns a post exactly when some post has the id, and that post is the first one with the id |
| Posts.FindUnique | script.js:118 | when ids are distinct, lookup returns `p` exactly when `p` is in the collection and has the id |
| Posts.MaxId | script.js:182 | `Math.max` of the parsed ids is at least every id and equal to one of them |
| Posts.NextId | script.js:182 | the new id is "1" for an empty collection, otherwise max+1; it is greater than every existing id and equal to none of them |
| Posts.Add | script.js:180-185 | adding grows the collection by exactly one, keeps the earlier posts unchanged, and appends the submitted fields under a fresh id ("1" when empty, max+1 otherwise) |
| Posts.AddWellFormed | script.js:182-183 | adding keeps ids numeric and pairwise distinct |
| Posts.Update | script.js:173-178 | with a present id, only the first post with that id is replaced, in place, by the submitted fields, and the length is unchanged; with an absent id, nothing changes |
| Posts.UpdateKeepsIds | script.js:177 | an update leaves the id at every position as it was |
| Posts.UpdateWellFormed | script.js:175-177 | updating keeps ids numeric and pairwise distinct |
| Posts.Remove | script.js:221 | filtering keeps exactly the posts whose id differs from the target, and never grows the collection |
| Posts.RemoveAppend | script.js:221 | filtering works element by element over a concatenation, so survivors keep their relative order |
| Posts.RemoveAbsent | script.js:221 | filtering out an id that no post has leaves the collection equal to what it was |
| Posts.RemoveUnique | script.js:221 | when ids are distinct, deleting a present id cuts out exactly the one post with that id and shrinks the collection by one |
| Posts.RemoveAt | script.js:221 | when ids are distinct, deleting the id found at position k gives the posts before k followed by the posts after k |
| Posts.RemoveWellFormed | script.js:221 | filtering keeps ids numeric and pairwise distinct |
| Posts.RemoveNoOp | script.js:221 | filtering returns the collection unchanged exactly when no post has the id |
| Posts.Delete | script.js:219-225 | a cancelled confirmation changes nothing; a confirmed one is the order-preserving filter, keeping exactly the posts whose id differs; an absent id is a no-op |
| Posts.DeleteWellFormed | script.js:219-221 | a delete keeps ids numeric and distinct, and a confirmed delete of a present id removes exactly one post |
| Posts.Submit | script.js:165-185 | an empty form id appends the submitted fields after the unchanged posts, under the id "1" when the list is empty and otherwise the canonical numeral (no leading zero) of max+1, which no existing post has; a non-empty id that some post has replaces the first such post, in place, with the submitted fields; a non-empty id that no post has changes nothing |
| Posts.SubmitWellFormed | script.js:173-185 | saving the form, as an add or an update, keeps ids numeric and distinct |
| Posts.Edit | script.js:195-206 | the form is filled exactly when some post has the id, and it carries every field of the first post with that id |
| Posts.EditThenSubmit | script.js:195-206 | editing a post and saving the form unchanged leaves the collection as it was |
| Store.InitializeData | script.js:4-26 | the page collections become the fetched document's, or empty when the fetch failed, whatever they held before |
| Store.ShowFullPost | script.js:114-125 | data is loaded only when no post is held; the result is the first post with the requested id in the current collection, present exactly when some post has that id |
| Session.SetLoggedIn | script.js:29-31 | the flag is stored as "true" when set to true and as "false" otherwise, and no other storage key changes |
| Session.IsLoggedIn | script.js:33-35 | logged in only when the flag is present, and exactly when the stored flag already says "true", so writing true would change nothing; a missing flag reads as logged out |
| Session.SetThenIsLoggedIn | script.js:29-35 | after `setLoggedIn(b)`, `isLoggedIn()` returns `b` |
| Session.SetLoggedInOverwrites | script.js:29-31 | a second write of the flag overrides the first |
| Session.Login | script.js:42-59 | login succeeds exactly for "admin" / "senha123", and then only the flag is written, as "true"; a failed login leaves the storage unchanged |
| Session.LoginOutcome | script.js:48-52 | after a login attempt the user is logged in exactly when they already were or the credentials were the fixed ones |
| Session.Logout | script.js:66-70 | logout writes the flag as "false", so the user is logged out, and leaves every other storage key unchanged |
| Session.OpenAdmin | script.js:134-143 | the admin panel opens exactly when the user is logged in, and then shows freshly loaded data |
| Session.LoginOpensAdmin | script.js:134-143 | a successful login opens the admin panel, and a logout closes it |
| Panel.Step | script.js:165-225 | every action keeps ids numeric and distinct; an add grows the collection by one, an update keeps its length, and a confirmed delete of a present id shrinks it by one |
| Panel.Run | script.js:165-225 | any sequence of actions keeps ids numeric and distinct, and grows the collection by at most the number of adds |
| Panel.FixtureThenAdd | script.js:182-183 | after loading a fixture with one post with id "1" and adding a post, the collection holds that post and then the new one, with id "2" |

## Left out

- Fetching and parsing `data.json` (script.js:4-16) is network I/O. The
  fetched document is an input: `Some(data)`, or `None` for any failure.
- Store.Data: the fetched document is assumed to hold both a `posts` and a
  `downloads` array, with string-valued fields and string ids. Other shapes
  are not modelled. A document without `posts` makes `currentPosts.length`
  throw (script.js:116, 148). A numeric id such as `"id": 1` never equals the
  string ids that come from the page (script.js:87, 156-157, 167), so show,
  edit and delete do nothing for that post while add still works.
- HTML rendering is not modelled: the templates, the 150-character preview
  and the download file name (script.js:73-111, 145-161).
- `alert`, redirects through `window.location`, form reset, and the cancel
  button's visibility are browser side effects (script.js:53-58, 68-69,
  134-143, 187-190, 208-216). The admin gate's redirect is `None`.
- `confirm` is not modelled as a dialog. Its answer is the boolean
  `confirmed` input to `Posts.Delete`.
- `sessionStorage` is a `map<string, string>` and holds only the login flag.
- `parseInt` on ids that are not numerals (NaN, leading blanks, trailing
  non-digits) is not modelled. A precondition requires every existing id to
  be a string of decimal digits, and only the add path needs it.
- Posts.NextId: ids are unbounded natural numbers. JavaScript numbers lose
  precision above 2^53, and there `max + 1` can equal `max`. `String(n)`
  also switches to exponent notation from 10^21. Neither is modelled.
- Posts.Post: a missing `downloadLink` (`undefined`) is the empty string.
  `editPost` makes the same substitution with `|| ''`.
- The spread in `Math.max(...)` can exceed the engine's argument limit on
  huge collections. This is not modelled.
- `showFullPost` and `initializeData` are asynchronous: while the fetch
  is pending, the `await` hands control back to the browser and other events
  run. As a simplification, each operation is modelled as completing before
  the next one starts. Interleavings are not modelled. One example: a form
  submitted on the admin page during the initial fetch adds a post to the
  empty list, and the fetch result then overwrites the list, so the post
  is lost. Another: two quick `showFullPost` clicks start two fetches.
- The admin panel never edits downloads in this script. They are only
  loaded, and appear in `Store.Data`.
