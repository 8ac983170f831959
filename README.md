# Admin projects page: a Dafny model

This project models the one stateful piece of the portfolio site: the admin
projects page (`AdminProjectsPage`). An administrator uses it to load, add,
delete and publish or unpublish project records held by a backend collection.

The page keeps four state slots: the list `projects`, the draft `newProject`,
the flag `isLoading` and the `error` message. In the model they are the fields
of the class `AdminPortfolio.AdminProjectsPage`. Each handler is one method.
A handler takes the server's answer as a `Result` parameter and returns the
request it would send. Delete also takes the user's answer to the confirmation
dialog as a boolean. No request is actually sent.

The handlers build new list values with pure expressions. The model writes
these as functions in module `ProjectList`:
- `WithoutId` is the `filter` used by delete.
- `WithPublished` is the `map` used by toggle.

The technologies text field shows `join(', ')` of the draft's list and stores
`split(', ')` of what was typed. Module `Technologies` models both to match
JavaScript's `split` and `join`:
- tokens are not trimmed;
- splitting `""` gives `[""]`;
- a bare `,` is not a separator.

The model follows what the code does, not a tidier reading of it:
- Delete removes every entry with the given id, not only the first one
  (`ProjectList.DeleteRemovesDuplicates`).
- Technology tokens are not trimmed.
- The error is cleared only when a fetch succeeds. A successful add, delete or
  toggle leaves an earlier error on screen.
- Nothing checks that ids are unique. The lemmas only say which transitions
  keep ids unique.

Modules: `Wrappers` (Option, Result), `Technologies`, `ProjectList`, `AdminPortfolio`.

## Model

| member | source | states |
|---|---|---|
| `Technologies.Join` | src/app/admin/_components/Admin-Portfolio.tsx:149 | the empty list is shown as the empty text, and the shown text starts with the first technology; `JoinSplit` and `SplitJoin` fix its meaning as the inverse of split |
| `Technologies.Split` | src/app/admin/_components/Admin-Portfolio.tsx:151 | splitting always gives at least one token, and the first token is a prefix of the input |
| `Technologies.JoinSplit` | src/app/admin/_components/Admin-Portfolio.tsx:149-151 | for every text `s`, joining `split(s)` with ", " gives back `s` exactly |
| `Technologies.SplitJoin` | src/app/admin/_components/Admin-Portfolio.tsx:149-151 | a non-empty list whose elements do not contain ", " survives join followed by split |
| `Technologies.SplitTokensWithoutSep` | src/app/admin/_components/Admin-Portfolio.tsx:151 | no token that split produces contains ", " |
| `Technologies.SplitUnique` | src/app/admin/_components/Admin-Portfolio.tsx:149-151 | split's result is the only non-empty list of ", "-free tokens that joins to the text |
| `Technologies.EmptyTextAndBareComma` | src/app/admin/_components/Admin-Portfolio.tsx:149-151 | an empty field is stored as `[""]`, and `[]` and `[""]` are both shown as the empty text; "React,Go" stays one token |
| `Technologies.SplitHintExample` | src/app/admin/_components/Admin-Portfolio.tsx:151-154 | the placeholder's example "React, Tailwind CSS" is stored as the two tokens "React" and "Tailwind CSS" |
| `ProjectList.WithoutId` | src/app/admin/_components/Admin-Portfolio.tsx:70 | the filtered list is no longer than the old one, and a record is in it exactly when it was in the old list with a different id |
| `ProjectList.WithoutIdAppend` | src/app/admin/_components/Admin-Portfolio.tsx:70 | the filter distributes over concatenation, so it keeps order |
| `ProjectList.WithoutIdSingle` | src/app/admin/_components/Admin-Portfolio.tsx:70 | a one-entry list keeps its entry exactly when the ids differ |
| `ProjectList.WithoutIdRemovesAll` | src/app/admin/_components/Admin-Portfolio.tsx:70 | after the filter, no entry has the deleted id |
| `ProjectList.WithoutIdAbsent` | src/app/admin/_components/Admin-Portfolio.tsx:70 | deleting an id that is not in the list leaves the list identical |
| `ProjectList.WithoutIdUniqueLength` | src/app/admin/_components/Admin-Portfolio.tsx:70 | with unique ids, deleting an id that is present removes exactly one entry |
| `ProjectList.WithoutIdKeepsUnique` | src/app/admin/_components/Admin-Portfolio.tsx:70 | the filter keeps ids unique |
| `ProjectList.WithoutIdPresentShrinks` | src/app/admin/_components/Admin-Portfolio.tsx:70 | deleting an id that occurs in the list removes at least one entry |
| `ProjectList.DeleteRemovesDuplicates` | src/app/admin/_components/Admin-Portfolio.tsx:70 | for every list holding two entries with the same id, one delete of that id shrinks it by at least two: every copy goes, not only the first |
| `ProjectList.WithPublished` | src/app/admin/_components/Admin-Portfolio.tsx:82-86 | length and order are kept; each entry with the id changes only `published`, which becomes the given value; every other entry is identical |
| `ProjectList.WithPublishedKeepsIds` | src/app/admin/_components/Admin-Portfolio.tsx:82-86 | every entry keeps its id through a toggle |
| `ProjectList.WithPublishedKeepsUnique` | src/app/admin/_components/Admin-Portfolio.tsx:82-86 | a toggle keeps ids unique |
| `ProjectList.WithPublishedLastWins` | src/app/admin/_components/Admin-Portfolio.tsx:82-86 | of two toggles of the same id, the later server answer decides `published` |
| `ProjectList.WithPublishedNoChange` | src/app/admin/_components/Admin-Portfolio.tsx:82-86 | setting the value the matching entries already have leaves the list unchanged |
| `ProjectList.TogglePublishRoundTrip` | src/app/admin/_components/Admin-Portfolio.tsx:79-86 | publishing and then unpublishing the unpublished entries of an id, with the server honouring both requests, gives back the original list |
| `ProjectList.AppendKeepsUnique` | src/app/admin/_components/Admin-Portfolio.tsx:49 | appending a record keeps ids unique exactly when its id is not already in the list |
| `AdminPortfolio.AdminProjectsPage.TechnologiesText` | src/app/admin/_components/Admin-Portfolio.tsx:149 | the technologies input shows the stored list joined with ", "; when that list is non-empty and no token contains ", ", splitting the shown text gives the stored list back |
| `AdminPortfolio.AdminProjectsPage.constructor` | src/app/admin/_components/Admin-Portfolio.tsx:17-28 | the page starts with no projects, the empty draft, not loading and no error |
| `AdminPortfolio.AdminProjectsPage.FetchProjects` | src/app/admin/_components/Admin-Portfolio.tsx:31-43 | sends one GET. On success the list becomes exactly the returned sequence and the error is cleared. On failure the list is unchanged and the error is the load message. Loading is false afterwards and the draft is not touched |
| `AdminPortfolio.AdminProjectsPage.AddProject` | src/app/admin/_components/Admin-Portfolio.tsx:46-63 | posts the current draft. On success the list is the old list plus the server's record at the end, the draft is reset to the empty draft and the error is not touched. On failure list and draft are unchanged and the error is the add message |
| `AdminPortfolio.AdminProjectsPage.DeleteProject` | src/app/admin/_components/Admin-Portfolio.tsx:66-76 | without confirmation nothing is sent and nothing changes. A confirmed success keeps only the entries with a different id, in order, and leaves the error. A confirmed failure keeps the list and sets the delete message |
| `AdminPortfolio.AdminProjectsPage.TogglePublish` | src/app/admin/_components/Admin-Portfolio.tsx:79-91 | requests the negation of the shown flag. On success the matching entries take the server's `published` value and the error is left. On failure the list is unchanged and the error is the update message |
| `AdminPortfolio.AdminProjectsPage.SetTitle` | src/app/admin/_components/Admin-Portfolio.tsx:116 | only the draft's title changes |
| `AdminPortfolio.AdminProjectsPage.SetDescription` | src/app/admin/_components/Admin-Portfolio.tsx:124 | only the draft's description changes |
| `AdminPortfolio.AdminProjectsPage.SetDetails` | src/app/admin/_components/Admin-Portfolio.tsx:132 | only the draft's details change |
| `AdminPortfolio.AdminProjectsPage.SetImage` | src/app/admin/_components/Admin-Portfolio.tsx:141 | only the draft's image URL changes |
| `AdminPortfolio.AdminProjectsPage.SetTechnologies` | src/app/admin/_components/Admin-Portfolio.tsx:149-151 | the draft stores the split text. The input then shows exactly what was typed, and no stored token contains ", " |

## Left out

- The HTTP calls and the `{ data: ... }` response envelope are network I/O. Each handler instead receives the server's answer as a `Result` and returns the `Request` it would send.
- `window.confirm` is a browser dialog. It is a boolean parameter of `DeleteProject`.
- `console.error` logging is left out.
- Concurrency is left out. The handlers read `projects` from a render-time closure, so overlapping requests can overwrite each other's results, last response wins. Each model method runs to completion on the current state.
- FetchProjects: `isLoading` is true only while the request is outstanding, and the model runs a handler as one step. So the model sets the flag and then resets it, and the contract states only the final `false`.
- The first fetch on mount (`useEffect`) is not modelled. It is a call to `FetchProjects` after the constructor.
- All JSX rendering is left out: the loading spinner, the error banner and the project cards. The one exception is the technologies input's displayed value, `TechnologiesText`.
- The header, the landing page and the static portfolio section are not part of this model. They have no state logic.
- Id uniqueness, token trimming and removing only the first match are not enforced, because the code does none of them. The lemmas state what holds with and without unique ids.
