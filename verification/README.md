# CafeQuest in Dafny

CafeQuest is a café-journal app. An Express/Mongoose backend keeps each user's
cafés: name, location, photo, a 1–5 rating, tags from a fixed list, notes, a
`visited`/`wishlist` status and a public flag. A React Native client lists your
own cafés, browses other people's public ones in a paged Discover feed, saves a
discovered café to your wishlist, and shows profile statistics.

This project models:

- the café schema (`Cafe.js`): a validity predicate, the trim setters, the
  defaults and the Mongoose validation messages;
- the two route files: one `Store` class over a `seq<Cafe>`, whose methods are
  the handlers of `GET/POST /api/cafes`, `GET/PUT/DELETE /api/cafes/:id`,
  `GET /api/discover` and `POST /api/discover/:id/save`;
- the client's tag table and lookups (`tags.js`);
- the logic inside six screens. Each screen's state is a class whose methods
  are its handlers; the pure parts are functions.

The caller's id, the clock and every network answer are parameters. ObjectIds
are natural numbers: a café id comes from a counter, a user id is below 2^96
(96 bits, like a real ObjectId), and a malformed id in a URL is `None`.

Modules and files:

| file | module | models |
|---|---|---|
| wrappers.dfy | Wrappers | `Option`, `Result`, HTTP errors |
| text.dfy | Text | `trim`, ASCII case mapping, substring search, `split`/`join`, decimal and hex rendering |
| ordering.dfy | Ordering | a stable sort by a numeric key, largest first |
| cafe_model.dfy | CafeModel | `backend/src/models/Cafe.js` |
| cafes_route.dfy | CafesRoute | the pure parts of `backend/src/routes/cafes.js` |
| discover_route.dfy | DiscoverRoute | the pure parts of `backend/src/routes/discover.js` |
| store.dfy | CafeStore | the store and all route handlers |
| tags.dfy | Tags | `mobile-app/src/constants/tags.js` |
| tag_selection.dfy | TagSelection | the tag toggle the screens share |
| profile_screen.dfy | ProfileScreen | `fetchStats` and `getInitials` |
| add_cafe_screen.dfy | AddCafeScreen | the add/edit form |
| discover_screen.dfy | DiscoverScreen | the paged feed screen |
| home_screen.dfy | HomeScreen | the own-list screen |
| signup_screen.dfy | SignupScreen | the sign-up form |
| login_screen.dfy | LoginScreen | the sign-in form |

## Model

| member | source | states |
|---|---|---|
| CafeModel.Instantiate | backend/src/models/Cafe.js:9-57 | the document Mongoose builds has trimmed name and location, the given id and owner, and createdAt = now |
| CafeModel.InstantiateTrimmed | backend/src/models/Cafe.js:9-19 | the `trim` setters leave an already-trimmed name and location exactly as given |
| CafeModel.TagViolations | backend/src/models/Cafe.js:31-35 | the enum validator of every element: element i is reported, as `tags.i` with its value, exactly when it is outside the enum; nothing else is reported, and the reports come in index order |
| CafeModel.NameViolations | backend/src/models/Cafe.js:9-14 | `name` reports exactly its failing validator, required before maxlength, and nothing exactly when it is non-empty and within 100 characters |
| CafeModel.LocationViolations | backend/src/models/Cafe.js:15-20 | `location` reports exactly its failing validator, required before maxlength, and nothing exactly when it is non-empty and within 200 characters |
| CafeModel.RatingViolations | backend/src/models/Cafe.js:25-30 | `rating` reports min or max with the value exactly when it is outside 1..5 |
| CafeModel.TagsReport | backend/src/models/Cafe.js:31-35 | the tags report holds exactly the failing validators of the `tags` path, each once |
| CafeModel.NotesViolations | backend/src/models/Cafe.js:36-40 | `notes` reports maxlength exactly when it exceeds 1000 characters |
| CafeModel.StatusViolations | backend/src/models/Cafe.js:41-45 | `status` reports its enum validator, with the value, exactly when it is neither `visited` nor `wishlist` |
| CafeModel.Violations | backend/src/models/Cafe.js:3-58 | a validator is reported exactly when it fails (`Fails`, path by path), each once, path by path in schema order; the list is empty exactly when the document conforms |
| CafeModel.Message | backend/src/models/Cafe.js:9-45 | each failed validator has a non-empty message: the schema's own text for required and maxlength, Mongoose's wording for min, max and enum |
| CafeModel.ValidationMessage | backend/src/routes/cafes.js:96-97 | every failed validator's message appears in the 400 message; it is empty exactly when none failed, starts with the first failure's message and is exactly that message when only one failed |
| CafeModel.DefaultsConform | backend/src/models/Cafe.js:21-57 | a document given only a non-blank name and location within length passes validation and carries all the defaults, with visitedAt null |
| CafesRoute.NonBlank | backend/src/routes/cafes.js:24 | `filter((t) => t.trim())` keeps exactly the pieces that are not blank |
| CafesRoute.TagList | backend/src/routes/cafes.js:23-24 | the tag array holds exactly the non-blank comma-separated pieces, untrimmed |
| CafesRoute.NonBlankKeepsAll | backend/src/routes/cafes.js:24 | filtering a list with no blank piece changes nothing |
| CafesRoute.TagListOfJoined | backend/src/routes/cafes.js:23-24 | joining non-blank tags without commas and splitting again gives the same list back |
| CafesRoute.BuildListQuery | backend/src/routes/cafes.js:12-33 | the query is scoped to the caller; it has a status only for `visited`/`wishlist`, a tags filter only when some non-blank tag survives, and a name search only for a non-empty search |
| CafesRoute.FilterList | backend/src/routes/cafes.js:35 | each café is kept, with its multiplicity, exactly when it satisfies the query |
| CafesRoute.QueryMeansListed | backend/src/routes/cafes.js:15-33 | the built query selects exactly the caller's own cafés that pass each usable filter, whatever their public flag |
| CafesRoute.HasNameAndLocation | backend/src/routes/cafes.js:75 | `!name \|\| !location`: a name and location that are not only white space always pass; the check looks only at presence and emptiness, so a non-empty name of spaces passes it too (see `BlankNameRequired`) |
| CafesRoute.BlankNameRequired | backend/src/models/Cafe.js:9-12 | a name of white space only is emptied by `trim`, so `required` fails: the first violation is NameRequired and the 400 message starts with "Cafe name is required" |
| CafesRoute.CreateFields | backend/src/routes/cafes.js:79-90 | the create object is the caller's, with name and location as sent; every other field but visitedAt is always set, a rating of 0 and an empty status fall back to 3 and `visited`; visitedAt is set exactly for a given date or an explicit `visited` status, so an omitted status gives a visited café with no visit date |
| CafesRoute.CreateDefaults | backend/src/routes/cafes.js:79-90 | the created document is owned by the caller, with trimmed name and location; a given photo, tags, notes, status and public flag are kept, and a missing one takes its default (photo "", tags [], notes "", status visited, isPublic true, so a given false is kept); rating 3 when missing or 0, else the given one; visitedAt is the given date, else now exactly when the request's status is literally `visited` |
| CafesRoute.ApplyUpdate | backend/src/routes/cafes.js:120-128 | every field that is undefined in the body keeps its value; id, owner and createdAt never change; trimming is preserved |
| CafesRoute.UpdateOverwrites | backend/src/routes/cafes.js:120-128 | every field present in the body overwrites the stored one: name and location trimmed, the others as sent; a null visitedAt clears the visit date, and a date sets it |
| CafesRoute.UpdateIdempotent | backend/src/routes/cafes.js:120-128 | applying the same update twice is the same as applying it once |
| DiscoverRoute.BuildFeedQuery | backend/src/routes/discover.js:15-34 | the feed query excludes the caller; it has a tags filter only when a non-blank tag survives and a search only when the search is non-empty |
| DiscoverRoute.FilterFeed | backend/src/routes/discover.js:38-40 | each café is kept, with its multiplicity, exactly when it satisfies the feed query |
| DiscoverRoute.QueryMeansInFeed | backend/src/routes/discover.js:15-34 | the built query selects exactly the public cafés of other users that pass the tags filter and whose name or location contains the search |
| DiscoverRoute.FeedSize | backend/src/routes/discover.js:44 | the `countDocuments` total, counted independently of the filter, which `FilterFeedSize` ties to the filtered list; its own contract only bounds it by the number of stored cafés |
| DiscoverRoute.FilterFeedSize | backend/src/routes/discover.js:38-44 | the filtered list is exactly as long as the count `countDocuments` returns |
| DiscoverRoute.PageCount | backend/src/routes/discover.js:49 | `pages` is the ceiling of total/limit: the smallest number of pages of `limit` that holds every match (negative limits included); absent for limit 0 |
| DiscoverRoute.Window | backend/src/routes/discover.js:36-42 | skip/limit returns, in order, the matches from position `skip` on: min(limit, matches left) of them for a positive limit, all of them for limit 0, and min(-limit, matches left) for a negative limit |
| DiscoverRoute.Paginate | backend/src/routes/discover.js:36-51 | a negative skip is a 500; otherwise the page holds, in order, the matches from position (page-1)*limit on: min(limit, matches left) of them for a positive limit; total is all matches and pages = ceil(total/limit) |
| DiscoverRoute.LoadedIsPrefix | backend/src/routes/discover.js:36-42 | pages 1 to k appended one after another are exactly the first k·limit matches |
| DiscoverRoute.MorePagesIffUnseen | backend/src/routes/discover.js:49 | page < pages exactly when page·limit matches do not cover the total |
| DiscoverRoute.Attribution | backend/src/routes/discover.js:88 | the attribution note fits the 1000-character notes limit |
| DiscoverRoute.CloneFields | backend/src/routes/discover.js:81-91 | the copy object is the caller's, names, places and tags the source's, carries the attribution note, and is a private wishlist entry with no visit date |
| DiscoverRoute.CloneShape | backend/src/routes/discover.js:81-91 | the saved copy is the source with a new id, the caller as owner, the attribution note, status wishlist, isPublic false, no visit date and createdAt now |
| DiscoverRoute.CloneStored | backend/src/routes/discover.js:81-91 | the copy of a stored café always passes validation, copies name, location, photo, rating and tags, and is a private wishlist entry |
| CafeStore.FindOwned | backend/src/routes/cafes.js:48-51 | `findOne({_id, userId})` finds a café with that id owned by the caller, or reports that none exists |
| CafeStore.FindById | backend/src/routes/discover.js:63 | `findById` finds the first café with that id, or reports that none exists |
| CafeStore.AppendKeepsCollection | backend/src/models/Cafe.js:3-58 | adding a valid document under a fresh id keeps every stored document valid and the ids distinct |
| CafeStore.Store.constructor | backend/src/models/Cafe.js:3-58 | an empty collection is a valid one, and the first id is 0 |
| CafeStore.Store.Insert | backend/src/routes/cafes.js:79-90 | `Cafe.create` of a valid document appends it under the next id and keeps the collection valid |
| CafeStore.Store.List | backend/src/routes/cafes.js:10-41 | the result is, with multiplicities, exactly the caller's cafés that pass the filters; every entry is the caller's; newest first |
| CafeStore.Store.Get | backend/src/routes/cafes.js:46-65 | found exactly when the caller owns a café with that id; absent, someone else's and malformed ids all give the same 404 |
| CafeStore.Store.Create | backend/src/routes/cafes.js:70-101 | a missing or empty name or location is a 400 "Name and location are required"; otherwise the document with defaults is stored and returned exactly when it validates, else a 400 with all messages joined by ", "; nothing changes on error |
| CafeStore.Store.Update | backend/src/routes/cafes.js:106-143 | a café the caller does not own gives 404; otherwise the update is stored exactly when the result validates, else a 400; nothing changes on error and other users' cafés never change |
| CafeStore.Store.Delete | backend/src/routes/cafes.js:148-167 | removes exactly the caller's café with that id and answers "Cafe removed", or gives 404 and changes nothing; other users' cafés remain |
| CafeStore.NewestFeed | backend/src/routes/discover.js:15-44 | the feed is, with multiplicities, exactly the public cafés of other users that pass the tags and search filters, newest first, and it is as long as the count `countDocuments` gives |
| CafeStore.Store.Discover | backend/src/routes/discover.js:10-56 | the answer is the page of the newest-first feed that `Paginate` cuts for the requested or default page (1) and limit (20): a negative skip is a 500; otherwise total counts the whole feed and pages = ceil(total/limit) |
| CafeStore.Store.SaveToWishlist | backend/src/routes/discover.js:61-98 | malformed id gives 500 and an unknown id 404, whatever the source's visibility; an existing café of the caller with the same name and location gives 400 and nothing changes; otherwise exactly the clone is added and the source is still found |
| CafeStore.RemoveKeepsCollection | backend/src/routes/cafes.js:150-157 | removing a document keeps every other document valid with distinct ids, and keeps every document different from the removed one |
| CafeStore.RemoveAt | backend/src/routes/cafes.js:150 | removing one position keeps the others in order |
| CafeStore.FindByIdAppend | backend/src/routes/discover.js:63 | adding a document does not change which café an existing id finds |
| CafeStore.SaveTwice | backend/src/routes/discover.js:69-78 | after a successful save, saving the same source again fails with "Cafe already in your collection" |
| CafeStore.SaveOwn | backend/src/routes/discover.js:69-78 | saving one of the caller's own cafés always fails with "Cafe already in your collection" and changes nothing |
| CafeStore.CreateBlankName | backend/src/routes/cafes.js:70-101 | a name of spaces with a location passes the route's check, then fails validation: 400 with a message starting "Cafe name is required", nothing stored |
| CafeStore.CreateThenGet | backend/src/routes/cafes.js:46-101 | a café the caller has just created is exactly what a GET of its id then returns |
| Ordering.SortDesc | backend/src/routes/cafes.js:35 | `sort({createdAt: -1})` returns a permutation ordered by key, largest first |
| Ordering.SortStable | mobile-app/src/screens/ProfileScreen.js:45 | the sort is stable: elements with equal keys keep their relative order |
| Ordering.WithKeyPrefix | mobile-app/src/screens/ProfileScreen.js:46 | a prefix keeps, for each key, a prefix of the elements with that key |
| Tags.TagIds | mobile-app/src/constants/tags.js:1-7 | the tag ids are distinct and equal the schema's tag enum, in order |
| Tags.StatusIds | mobile-app/src/constants/tags.js:9-12 | the status ids are exactly `visited` and `wishlist` |
| Tags.FindTag | mobile-app/src/constants/tags.js:14 | `find` returns the first entry with the id, or nothing when no entry has it |
| Tags.GetTagById | mobile-app/src/constants/tags.js:14 | an entry is returned exactly for the schema's tag values, and it is the table entry with that id |
| Tags.GetTagLabel | mobile-app/src/constants/tags.js:15 | a known id gives its table label; an unknown id gives the id itself |
| Tags.JoinedTagsRoundTrip | mobile-app/src/screens/HomeScreen.js:30 | tags from the table, joined with "," as a screen sends them, come out of the server's split-and-filter unchanged |
| TagSelection.Remove | mobile-app/src/screens/AddCafeScreen.js:110 | `filter((t) => t !== tag)` drops every occurrence of the tag and keeps the count of every other tag |
| TagSelection.Toggle | mobile-app/src/screens/AddCafeScreen.js:108-112 | membership of the pressed tag flips, others are unaffected; a present tag is filtered out, shrinking the list, an absent one is appended at the end |
| TagSelection.RemoveShrinks | mobile-app/src/screens/AddCafeScreen.js:110 | removing a present tag shortens the list |
| TagSelection.RemoveAbsent | mobile-app/src/screens/AddCafeScreen.js:110 | removing an absent tag changes nothing |
| TagSelection.RemoveAppend | mobile-app/src/screens/AddCafeScreen.js:110 | removal distributes over concatenation |
| TagSelection.RemoveInOrder | mobile-app/src/screens/AddCafeScreen.js:110 | `filter` keeps order: around any position, the filtered prefix, the element unless it is the tag, then the filtered suffix |
| TagSelection.ToggleTwice | mobile-app/src/screens/AddCafeScreen.js:108-112 | toggling an absent tag twice restores the original list |
| TagSelection.ToggleSelectedTwice | mobile-app/src/screens/AddCafeScreen.js:108-112 | toggling a present tag twice removes its copies and puts it once at the end |
| ProfileScreen.StatusCount | mobile-app/src/screens/ProfileScreen.js:33-34 | `filter(...).length` is at most the number of cafés; 0 exactly when no café has the status, all of them exactly when every café has it |
| ProfileScreen.StatusCountsBounded | mobile-app/src/screens/ProfileScreen.js:33-34 | visited plus wishlist counts never exceed the number of cafés |
| ProfileScreen.FirstSeenDistinct | mobile-app/src/screens/ProfileScreen.js:37-44 | the keys of `tagCount`, in insertion order, list every tag once |
| ProfileScreen.Tally | mobile-app/src/screens/ProfileScreen.js:40 | one count step turns an exact tally of the tags seen so far into an exact tally that includes the new tag |
| ProfileScreen.TallyTags | mobile-app/src/screens/ProfileScreen.js:39-41 | counting one café's tags extends an exact tally by all of them: keys, counts and first-seen order |
| ProfileScreen.TallyStep | mobile-app/src/screens/ProfileScreen.js:40 | one `tagCount[tag] = (tagCount[tag] \|\| 0) + 1` keeps the counts equal to the occurrences so far |
| ProfileScreen.CountTags | mobile-app/src/screens/ProfileScreen.js:37-42 | the keys are exactly the tags that occur; each count is the number of occurrences over all cafés; the key order is first-seen order |
| ProfileScreen.TagEntries | mobile-app/src/screens/ProfileScreen.js:44 | `Object.entries(tagCount)` gives every occurring tag with its count |
| ProfileScreen.TopTags | mobile-app/src/screens/ProfileScreen.js:44-47 | at most 3 entries (fewer only when fewer tags exist), counts non-increasing, drawn from the entries |
| ProfileScreen.TopTagsDominate | mobile-app/src/screens/ProfileScreen.js:44-46 | a tag left out has a count no larger than any shown one |
| ProfileScreen.TopTagsStable | mobile-app/src/screens/ProfileScreen.js:44-47 | among equal counts the shown tags are the first ones in first-seen order |
| ProfileScreen.Heads | mobile-app/src/screens/ProfileScreen.js:87-88 | `map((n) => n[0]).join('')` gives at most one character per piece, exactly one for each when no piece is empty |
| ProfileScreen.HeadsOfWords | mobile-app/src/screens/ProfileScreen.js:87-88 | for non-empty words, the joined heads are their first letters |
| ProfileScreen.Initials | mobile-app/src/screens/ProfileScreen.js:83-91 | "?" for a missing or empty name; otherwise the upper-cased characters that start a word (a non-space first or after a space), the first two of them, or all when fewer |
| ProfileScreen.HeadsOfSplit | mobile-app/src/screens/ProfileScreen.js:86-88 | `split(' ').map((n) => n[0]).join('')` gives exactly the characters that start a word, empty pieces contributing nothing |
| ProfileScreen.InitialsFromStarts | mobile-app/src/screens/ProfileScreen.js:83-91 | a name with one word start gives exactly that character upper-cased; with two or more, exactly the first two upper-cased |
| ProfileScreen.InitialsOfWords | mobile-app/src/screens/ProfileScreen.js:83-91 | a one-word name gives its upper-cased first letter; a name of two or more words gives the upper-cased first letters of the first two |
| ProfileScreen.WordStartsOfJoin | mobile-app/src/screens/ProfileScreen.js:86-88 | words joined with single spaces start exactly with the words' first letters |
| ProfileScreen.Profile.constructor | mobile-app/src/screens/ProfileScreen.js:20-26 | the statistics start at zero with no top tags, and loading |
| ProfileScreen.Profile.FetchStats | mobile-app/src/screens/ProfileScreen.js:28-60 | a response sets total, the visited and wishlist counts and the top tags; a failure keeps the old statistics; loading ends either way |
| AddCafeScreen.AsRequest | mobile-app/src/screens/AddCafeScreen.js:128-138 | the body carries name and location, and a visit date exactly when the payload has one |
| AddCafeScreen.CafeForm.constructor | mobile-app/src/screens/AddCafeScreen.js:25-50 | the form starts with the defaults, or with the edited café's fields copied in |
| AddCafeScreen.CafeForm.HandleTagPress | mobile-app/src/screens/AddCafeScreen.js:108-112 | the tags are toggled and no other field changes |
| AddCafeScreen.CafeForm.Payload | mobile-app/src/screens/AddCafeScreen.js:128-138 | name, location and notes trimmed; photo "" when none is set; visitedAt present exactly when status is visited, and then it is now |
| AddCafeScreen.CafeForm.SubmitOutcome | mobile-app/src/screens/AddCafeScreen.js:114-146 | a blank name is reported first, then a blank location; otherwise an update of the edited café's id, or a create when there is none |
| AddCafeScreen.CafeForm.HandleSubmit | mobile-app/src/screens/AddCafeScreen.js:114-125 | only the loading flag changes, and it is set exactly when a request goes out |
| AddCafeScreen.CafeForm.RequestSettled | mobile-app/src/screens/AddCafeScreen.js:153-155 | loading ends, success or failure, and the fields stay |
| AddCafeScreen.SubmittedCafeKept | mobile-app/src/screens/AddCafeScreen.js:128-146 | a submitted payload passes the server's name/location check, and the document the server builds from it keeps the name, location, notes, tags, public flag and visit date sent |
| AddCafeScreen.PayloadReady | mobile-app/src/screens/AddCafeScreen.js:115-134 | a payload that passes the checks has a non-empty trimmed name and location |
| DiscoverScreen.DiscoverFeed.constructor | mobile-app/src/screens/DiscoverScreen.js:21-28 | empty list, loading, page 1, hasMore |
| DiscoverScreen.DiscoverFeed.BuildParams | mobile-app/src/screens/DiscoverScreen.js:32-34 | page and limit 10 always; tags joined with "," exactly when some are selected, and then they read back unchanged; the trimmed search exactly when it is not blank |
| DiscoverScreen.DiscoverFeed.Receive | mobile-app/src/screens/DiscoverScreen.js:30-53 | a fetch in append mode adds the page after the list, otherwise the page replaces the list; hasMore = pageNum < pages; a failure keeps list and hasMore; every loading flag is cleared |
| DiscoverScreen.DiscoverFeed.LoadMore | mobile-app/src/screens/DiscoverScreen.js:68-75 | nothing happens while loading more or without more pages; otherwise loadingMore is set, page is incremented and that page is fetched in append mode; the list and the other flags stay |
| DiscoverScreen.DiscoverFeed.OnRefresh | mobile-app/src/screens/DiscoverScreen.js:62-66 | refreshing, back to page 1, and page 1 is fetched in replace mode; the list, loading, loadingMore and hasMore stay |
| DiscoverScreen.DiscoverFeed.OnFilterChange | mobile-app/src/screens/DiscoverScreen.js:55-60 | a change of tags or search goes back to page 1 and fetches it in replace mode; nothing else changes |
| DiscoverScreen.DiscoverFeed.HandleTagChange | mobile-app/src/screens/DiscoverScreen.js:77-81 | the selection is toggled; list, page, hasMore, search and every loading flag stay |
| DiscoverScreen.ScrollToEnd | mobile-app/src/screens/DiscoverScreen.js:68-75 | a load-more goes out exactly when none is in flight and more pages remain; when it succeeds, the next page is appended after the cafés already shown and hasMore is recomputed; otherwise the list and page stay |
| DiscoverScreen.PullToRefresh | mobile-app/src/screens/DiscoverScreen.js:62-66 | a successful refresh shows page 1 alone in place of everything loaded before; a failed one keeps the list; either way the page is 1 and the spinners stop |
| DiscoverScreen.ParamsSelect | mobile-app/src/screens/DiscoverScreen.js:32-36 | the parameters sent select, on the server, the public cafés of other users that carry a selected tag and contain the trimmed search in name or location |
| DiscoverScreen.SearchParamFilter | mobile-app/src/screens/DiscoverScreen.js:34 | the search parameter filters as the search box text does |
| DiscoverScreen.ScrollingLoadsPrefix | mobile-app/src/screens/DiscoverScreen.js:39-45 | after pages 1..k are appended the list is the first 10·k matches, and hasMore holds exactly while matches remain unseen |
| HomeScreen.CafeList.constructor | mobile-app/src/screens/HomeScreen.js:19-24 | empty list, loading, no search, no status, no tags |
| HomeScreen.CafeList.BuildParams | mobile-app/src/screens/HomeScreen.js:28-31 | a status only when one is selected; tags joined exactly when some are selected; the trimmed search exactly when it is not blank |
| HomeScreen.CafeList.Receive | mobile-app/src/screens/HomeScreen.js:33-40 | a response replaces the list, a failure keeps it; both loading flags are cleared |
| HomeScreen.CafeList.OnRefresh | mobile-app/src/screens/HomeScreen.js:49-52 | refreshing is set and the list stays |
| HomeScreen.CafeList.HandleTagChange | mobile-app/src/screens/HomeScreen.js:54-58 | the selection is toggled; list, search, status and both loading flags stay |
| HomeScreen.CountLabel | mobile-app/src/screens/HomeScreen.js:116 | the count, a space, then "cafe" exactly when the count is 1 and "cafes" otherwise |
| HomeScreen.CountLabelReadsBack | mobile-app/src/screens/HomeScreen.js:116 | the label splits into a number that reads back as the count and the noun |
| HomeScreen.ListParamsSelect | mobile-app/src/screens/HomeScreen.js:28-33 | the parameters sent select, on the server, the caller's cafés with the chosen status, a selected tag and the trimmed search in the name |
| SignupScreen.CheckSignup | mobile-app/src/screens/SignupScreen.js:29-48 | register is reached exactly when no field is blank, the passwords match and the password has at least 6 characters; otherwise the first failing check alone gives its message; register gets the trimmed email and username and the password as typed |
| SignupScreen.RegisteredArguments | mobile-app/src/screens/SignupScreen.js:48 | register gets a non-empty trimmed email and username and a password of at least 6 characters that is not only spaces |
| SignupScreen.SignupForm.constructor | mobile-app/src/screens/SignupScreen.js:21-26 | every field empty and not loading |
| SignupScreen.SignupForm.HandleSignup | mobile-app/src/screens/SignupScreen.js:28-44 | the outcome is the check chain's, and loading is set exactly when register is called |
| SignupScreen.SignupForm.Settled | mobile-app/src/screens/SignupScreen.js:49-53 | a failure raises "Registration Failed" with its message; loading ends either way |
| LoginScreen.CheckLogin | mobile-app/src/screens/LoginScreen.js:27-36 | login is reached exactly when neither email nor password is blank, with the trimmed email and the password as typed; otherwise "Please fill in all fields" |
| LoginScreen.LoginIgnoresSurroundingSpaces | mobile-app/src/screens/LoginScreen.js:36 | spaces around the email do not change the sign-in request |
| LoginScreen.LoginForm.constructor | mobile-app/src/screens/LoginScreen.js:21-24 | both fields empty and not loading |
| LoginScreen.LoginForm.HandleLogin | mobile-app/src/screens/LoginScreen.js:26-33 | the outcome is the check's, and loading is set exactly when login is called |
| LoginScreen.LoginForm.Settled | mobile-app/src/screens/LoginScreen.js:37-41 | a failure raises "Login Failed" with its message; loading ends either way |
| LoginScreen.Attempt | mobile-app/src/screens/LoginScreen.js:26-42 | an attempt that reaches login ends with loading cleared whether it succeeded or failed; a refused one leaves loading alone |
| Text.Trim | backend/src/models/Cafe.js:12 | `trim` leaves no white space at either end |
| Text.TrimSlice | backend/src/models/Cafe.js:12 | what `trim` leaves is a contiguous piece of the input with only white space cut from each end |
| Text.TrimKeepsTrimmed | backend/src/models/Cafe.js:12 | a string with no white space at either end is unchanged by `trim`; so trimming twice is trimming once |
| Text.Upper | mobile-app/src/screens/ProfileScreen.js:89 | `toUpperCase` keeps the length and maps each letter to its upper case |
| Text.Split | backend/src/routes/cafes.js:24 | `split(',')` gives at least one piece, and no piece holds the separator |
| Text.JoinSplit | backend/src/routes/cafes.js:24 | joining the pieces of a split with the separator gives the input back |
| Text.SplitJoin | mobile-app/src/screens/ProfileScreen.js:86 | splitting a join of separator-free pieces gives the pieces back |
| Text.JoinOccurs | backend/src/routes/cafes.js:97 | each part of `join` occurs in the result at the returned position |
| Text.TrimEmptyIffBlank | mobile-app/src/screens/LoginScreen.js:27 | `s.trim()` is empty exactly when `s` is only white space |
| Text.DecimalRoundTrip | mobile-app/src/screens/HomeScreen.js:116 | a rendered count reads back as the same number |
| Text.Decimal | mobile-app/src/screens/HomeScreen.js:116 | `String(n)` is a non-empty string of digits that starts with 0 only for 0 itself |
| Text.HexRoundTrip | backend/src/routes/discover.js:88 | an id below 16^width written as `width` hex digits reads back as the same id |

## Left out

- The MongoDB and Mongoose machinery: the `populate` join of username and avatar, indexes, ObjectId casting and the `protect` middleware. The store is an in-memory sequence, ids are numbers and the caller's id is a parameter.
- The `$regex` search: it is modelled as a literal substring match, case-insensitive for ASCII letters only.
- Unicode: there is no non-ASCII case mapping, and lengths count code points, not UTF-16 units. `toUpperCase` in `getInitials` is ASCII only for the same reason.
- `parseInt` on page and limit is not modelled; page and limit are integers or absent. A non-numeric value (NaN) is not modelled.
- JSON `null` in a request body is modelled only for `visitedAt`. Any other field is either a value or undefined.
- Mongoose's message order for several failing paths is taken as schema path order, and the wording of the built-in min/max/enum messages follows Mongoose's defaults.
- `createdAt` ties are ordered by store order (a stable sort). MongoDB makes no promise for ties.
- The duplicate-check-then-insert race between concurrent saves: each handler runs atomically.
- `tagCount` is modelled as a map plus its key insertion order. JavaScript's ordering of integer-like object keys first, and keys such as `__proto__`, are not modelled; tag strings are assumed not to be integer-like.
- The authentication context, the axios API layer, the image picker and upload, the `Alert` dialogs other than their messages, navigation, and all rendering (including the empty-list hint on the home screen).
- The status chip's setter (`setSelectedStatus`) and the search box's `setSearchQuery`: they are plain assignments of the screen fields.
- `handleSaveCafe` on the discover screen: it only forwards to the save route and shows an alert.
- `useFocusEffect` re-fetching on filter changes: on the discover screen its page reset is `OnFilterChange`; the fetch itself, on both screens, is `BuildParams` followed by `Receive`. Which state changes trigger the effect is React's business and is not modelled.
- `rating` is a JavaScript number in the schema (backend/src/models/Cafe.js:25-30), so 4.5 is stored and 0.5 fails `min`. The model's rating is an integer and expresses neither fractional case.
- CafeStore.Store.Create: a success is `Ok` with the document; the 201 status code (backend/src/routes/cafes.js:92) is not part of the result.
- CafeStore.Store.SaveToWishlist: a success is `Ok` with the copy; the 201 status code (backend/src/routes/discover.js:93) is not part of the result.

Behaviour of the code worth knowing, which the model follows:

- visitedAt is set to now only when the request's status is literally `visited` (backend/src/routes/cafes.js:89), so a create with no status is stored as `visited` with a null visitedAt.
- The schema does not reject duplicate tags (backend/src/models/Cafe.js:31-35), so duplicates are stored.
- Saving with a malformed id answers 500, because the save route has no ObjectId special case (backend/src/routes/discover.js:94-96). Saving does not check the source's visibility.
