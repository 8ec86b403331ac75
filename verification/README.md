# Users screen and create-flight form of an airline back-office console

This project models the two pieces of state logic in an airline back-office
console written in React. Everything else in that console is rendering.

- **The users list screen** (`UsersPage`). The screen holds one server page of
  users, a loading flag, the current page and page count, and two dialogs. It
  fetches a page whenever the current page changes. It patches the page in
  place after a create (append), an update (replace by `id`) or a delete
  (filter out by `id`), and never re-fetches after such a mutation.
- **The create-flight form** (`CreateFlightForm`). It is a draft of five text
  fields plus an `isValid` flag. Focusing an input sets the flag. Only a
  failed submission clears it. Submission is gated on the flag.

Every awaited service call appears as an input, `Values.Settled<T>`: either
`Fulfilled(payload)` or `Rejected`. As a result, each handler is a pure
function from one state record to the next.

Files:

- `values.dfy` holds `Option` for nullable values and `Settled` for call outcomes.
- `user_list.dfy` holds the `User` record and the two list patches, `RemoveById` and `ReplaceById`, with their lemmas.
- `users_page.dfy` holds the screen state, its handlers, the page effect, what the rendered screen offers, and the screen-level properties.
- `create_flight.dfy` holds the form state, its handlers and its properties.

Modelling choices that follow the code:

- **The page effect.** The effect keyed on `currentPage` is `UsersPage.Commit`: any transition that changes the current page starts `fetchUsers`.
- **Re-fetch on page mismatch.** A successful fetch copies the response's `number` into `currentPage`. If that number differs from the page requested, the effect fetches again (`SettleEndsLoading`).
- **Gating while loading.** While `loading` holds, only the spinner renders, so no user action has any effect (`LoadingBlocksActions`). As a result, there is never more than one fetch in flight.
- **Gating by dialog.** The create form exists only inside the open create dialog. The details form exists only inside the open details dialog when a user is selected. `UsersPage.Offered` encodes both rules.
- **Opening the details dialog.** The details dialog has no trigger, so the user can only dismiss it (`CloseDetails`). It opens only through `handleEditUser`.
- **Stale state on failure.** A failed flight create clears the flag over the state that was *submitted*. The handler closes over that state, so any edit made while the call was pending is lost (`FailureDropsPendingEdit`).
- **The 'isValid' key.** The TypeScript type of `handleChange`'s field argument also admits `'isValid'`, but the only caller passes the keys of `fieldLabels`. The model's `Field` type therefore has exactly those five members.
- **Duplicate creates.** A successful create appends the returned user even when the page already holds an equal user. The returned user therefore occurs once more than before, which is not necessarily exactly once (`CreateAppendsServerUser`). The code also does not check the requested page against the page count.
- **Delete sends no id.** `deleteUser()` is called without the user's id (src/pages/users/users.tsx:91), so the server-side request cannot target that user. Only the local filter is modelled. Its outcome is an input that does not depend on the id.

## Model

| member | source | states |
|---|---|---|
| UserList.RemoveById | src/pages/users/users.tsx:92 | the filtered list is no longer than the original, and a user is in it exactly when it was in the original and its id differs from the deleted id |
| UserList.RemoveByIdCounts | src/pages/users/users.tsx:92 | every user whose id differs keeps its exact multiplicity, and users with the deleted id have none left |
| UserList.RemoveByIdKeepsOrder | src/pages/users/users.tsx:92 | the surviving users keep their relative order (the result is a subsequence of the original) |
| UserList.RemoveByIdAppend | src/pages/users/users.tsx:92 | removal distributes over concatenation, which makes it exactly an order-preserving filter |
| UserList.RemoveByIdUnchanged | src/pages/users/users.tsx:92 | deleting leaves the list unchanged if and only if no user carries the id |
| UserList.RemoveByIdIdempotent | src/pages/users/users.tsx:92 | deleting the same id twice gives the same list as deleting it once |
| UserList.ReplaceById | src/pages/users/users.tsx:115-117 | same length; position i holds the updated user if the old element's id matches, and otherwise holds the old element unchanged |
| UserList.ReplaceByIdKeepsIds | src/pages/users/users.tsx:115-117 | every position keeps its id, so an update never adds, drops or reorders users |
| UserList.ReplaceByIdMembership | src/pages/users/users.tsx:115-117 | the updated user is present exactly when it already was or some user had its id; every user with that id is now the updated user; users with other ids come from the original list |
| UserList.ReplaceByIdUnchanged | src/pages/users/users.tsx:115-117 | the list is unchanged if and only if every user with that id already equals the updated user |
| UserList.ReplaceByIdIdempotent | src/pages/users/users.tsx:115-117 | applying the same update twice is the same as applying it once |
| UserList.ReplaceByIdAppend | src/pages/users/users.tsx:115-117 | replacement distributes over concatenation |
| UsersPage.Initial | src/pages/users/users.tsx:39-45 | the screen mounts loading, with no users, on page 0 of 0, with both dialogs closed and no selection |
| UsersPage.FetchRequest | src/pages/users/users.tsx:51 | a fetch asks for the current page, 10 users per page, sorted by name |
| UsersPage.BeginFetch | src/pages/users/users.tsx:49 | starting a fetch sets loading and changes nothing else |
| UsersPage.EndFetch | src/pages/users/users.tsx:50-64 | on success the users, page count and current page are replaced by the response; on failure all three are kept; loading ends either way; the dialogs and the selection are untouched |
| UsersPage.Commit | src/pages/users/users.tsx:67-69 | the page effect changes nothing but the loading flag, and the screen is loading afterwards exactly when it already was or the transition changed the current page |
| UsersPage.CreateDone | src/pages/users/users.tsx:71-87 | on success the list is the old list followed by the user the server returned, the create dialog is closed, and nothing else changes; on failure the screen is unchanged |
| UsersPage.DeleteDone | src/pages/users/users.tsx:89-105 | on success a user is in the list exactly when it was there before with a different id, and nothing else changes; on failure the screen is unchanged |
| UsersPage.SelectForEdit | src/pages/users/users.tsx:107-110 | the given user becomes the selection and the details dialog opens; the list, the pagination and the create dialog are untouched |
| UsersPage.UpdateDone | src/pages/users/users.tsx:112-131 | on success the list keeps its length, with the updated user at exactly the positions of its id and the old element everywhere else, and the details dialog closes; on failure the screen is unchanged |
| UsersPage.PageChange | src/pages/users/users.tsx:133-135 | only the current page changes, to the requested one |
| UsersPage.Step | src/pages/users/users.tsx:137-184 | while loading nothing changes; a save from a closed create dialog, or from a closed or empty details dialog, changes nothing; every action but a page change keeps the page, the page count and the loading flag; only edit selection opens the details dialog; only a create, update or delete changes the list |
| UsersPage.LoadingBlocksActions | src/pages/users/users.tsx:137-143 | while loading, every user action leaves the screen unchanged, so no second fetch can start |
| UsersPage.MutationsKeepPagination | src/pages/users/users.tsx:71-131 | create, update, delete, edit selection and dialog toggles keep the current page, the page count and the loading flag, so none of them re-fetches |
| UsersPage.FailedMutationChangesNothing | src/pages/users/users.tsx:71-131 | a failed create, update or delete leaves the whole screen unchanged, including the list, the pagination and both dialog flags |
| UsersPage.PageChangeFetches | src/pages/users/users.tsx:133-135 | changing to another page starts exactly one fetch, of that page, with the list kept until the fetch settles; requesting the page already shown does nothing |
| UsersPage.SettleEndsLoading | src/pages/users/users.tsx:54-69 | once a fetch settles, loading continues only if the server reported a different page number, and then the next fetch is of that page; a failed fetch always ends loading |
| UsersPage.FetchShowsRequestedPage | src/pages/users/users.tsx:48-65 | a fetch whose response reports the requested page leaves the screen ready on that page, showing exactly the returned users and page count |
| UsersPage.MountFetchesFirstPage | src/pages/users/users.tsx:39-69 | mounting fetches page 0 (size 10, by name); a successful answer for page 0 leaves the screen ready on it |
| UsersPage.DeleteIsFilter | src/pages/users/users.tsx:89-93 | after a successful delete no user carries the id, every other user keeps its multiplicity, the survivors keep their order, and the pagination is unchanged |
| UsersPage.DeleteUndoesCreate | src/pages/users/users.tsx:71-93 | deleting by id a user just created, whose id was new to the page, restores the previous list |
| UsersPage.CreateAppendsServerUser | src/pages/users/users.tsx:73-75 | a successful create appends the server's user, which now occurs exactly once more than before, and closes the create dialog |
| UsersPage.UpdateReplacesMatching | src/pages/users/users.tsx:112-119 | a successful save from the details dialog keeps the length, replaces exactly the positions holding the saved id, leaves every other position unchanged, closes the dialog and keeps the selection |
| UsersPage.DeleteScenario | src/pages/users/users.tsx:89-93 | deleting "1" from [1:A, 2:B] on page 0 of 3 leaves [2:B] on page 0 of 3 |
| CreateFlight.FieldOfKey | src/pages/flights/create.tsx:9-15 | a key that names a field maps back to that field; every other key, including 'isValid', names no field |
| CreateFlight.KeyRoundTrip | src/pages/flights/create.tsx:9-15 | converting a field to its key and back gives the same field; 'isValid' is not the key of any editable field |
| CreateFlight.InputsAreTheFields | src/pages/flights/create.tsx:59-61 | the rendered inputs are every editable field exactly once, with pairwise different labels, so the validity flag is never an input |
| CreateFlight.Initial | src/pages/flights/create.tsx:18-25 | the form starts with all five fields empty and the flag set |
| CreateFlight.Change | src/pages/flights/create.tsx:27-29 | the edited field takes the typed value; every other field and the flag are unchanged |
| CreateFlight.Extensionality | src/pages/flights/create.tsx:18-25 | the five fields and the flag determine the form state |
| CreateFlight.ChangeToSameValue | src/pages/flights/create.tsx:27-29 | typing a field's current value back into it leaves the form unchanged |
| CreateFlight.ChangeLastWins | src/pages/flights/create.tsx:27-29 | two edits of the same field are equivalent to the last one alone |
| CreateFlight.ChangeCommutes | src/pages/flights/create.tsx:27-29 | edits of different fields give the same form in either order |
| CreateFlight.Focus | src/pages/flights/create.tsx:66 | focusing any input sets the flag and keeps every field value |
| CreateFlight.FocusIdempotent | src/pages/flights/create.tsx:66 | focusing twice is the same as focusing once, and focus changes the form if and only if the flag was cleared |
| CreateFlight.Submit | src/pages/flights/create.tsx:31-36 | submitting never changes the form; it issues one create call exactly when the flag is set, and that call carries the whole current form |
| CreateFlight.SubmitSettled | src/pages/flights/create.tsx:37-43 | after a failure the flag is cleared and the fields are those of the submitted form; after a success the form is left as it is |
| CreateFlight.RetryAfterFailure | src/pages/flights/create.tsx:34-43 | after a failure, submitting issues nothing until an input is focused; after that, submitting re-sends the same form without any retyping |
| CreateFlight.FailureDropsPendingEdit | src/pages/flights/create.tsx:36-43 | an edit made while the create call is pending is lost when the call fails |
| CreateFlight.CreateScenario | src/pages/flights/create.tsx:31-43 | the AA1 JFK to GRU form is sent exactly as filled in; on failure the flag clears and the fields stay |
| CreateFlight.FillAndSubmit | src/pages/flights/create.tsx:18-36 | filling each field once from the initial form and then submitting sends exactly the typed values |

## Left out

- Rendering (tables, cards, dialogs, the spinner's markup), toasts, `alert` and `console` output. They are presentation only. The rendered screen enters the model only through which actions it offers (`UsersPage.Offered`).
- The service layer and the REST client. Each call is an input of type `Settled`. Path building, transport and re-throwing are not modelled. src/services/flights-service/flightsService.ts is a wrapper of this kind. The user service is not part of this model.
- The router and its route guard (src/routes/index.tsx). They are static configuration, and the guard is not part of this model.
- The server side of `deleteUser()`, which is called without an id. Only the local filter is modelled.
- Concurrency. Create, update and delete on the users screen are each one atomic step: the call is issued and settled in the same transition. The page fetch and the flight submit are split into an issuing step (`BeginFetch`, `Submit`) and a settling step (`EndFetch`/`Settle`, `SubmitSettled`). Interleaved completions are not modelled, and neither are stale closures over `users` or state updates after unmount. On the flight failure path the submit-time closure changes the outcome, so `SubmitSettled` takes the submitted state as a parameter.
- The child components `UserTable`, `UserDetails`, `UserCreateDetails` and `PaginationComponent` are not part of this model. The model assumes that their callbacks may pass any user, id or page.
- Browser enforcement of the `required` attribute that every flight input carries (src/pages/flights/create.tsx:67). The browser fires no submit event while a field is empty, but the model does not encode this. As a result, `Submit` and `FillAndSubmit` may send empty fields.
- Date and airport format checking. The code implements none.
- JavaScript numbers. `currentPage` and `totalPages` are unbounded integers, and the response's page fields are taken as given.
