# tgbot-chapter-notifier, modelled in Dafny

The bot watches a manga site for new chapters and tells Telegram chats about
them. It has three parts.

- **Records.** The domain layer (`src/domain/model.py`, `src/domain/communications.py`)
  defines the records: a manga, a chapter, a chat, and a chat's subscription to
  a manga. It also provides list helpers that search these lists, append to them
  and remove from them in place.
- **Storage.** The records are kept in an SQLite file with four tables. The
  primitive store (`src/domain/database.py`) runs the SQL. The typed store
  (`src/app/database.py`) turns rows into records. Along the way it parses
  chapter dates, picks each manga's latest chapter and joins each subscription
  with its chat and its manga.
- **Pipeline and menus.** Two steps run periodically (`src/app/actions.py`).
  `explore_web` stores every scraped chapter that is not stored yet.
  `process_reporting` notifies every subscription whose last notified chapter
  is not its manga's latest chapter, then records that chapter. The menus
  (`src/app/messages.py`) page a sorted list of names into an inline keyboard.
  Each button's callback data is `source:selection:page`. A handler splits it
  and looks the selected item up again.

How the model is built:

- Lists shared by reference and mutated in place are a `ListRef` class. The
  two stores are classes over their connection state.
- Each SQL statement is a pure function on the four tables. A statement fails
  on a primary-key conflict, and also when it touches no row, because the SQLite
  client raises on a zero row count (`src/infrastructure/sqlite_client.py:49-50`).
- Every loop is a method proved against a specification function. The two
  pipeline steps are specified by left folds over the snapshot that the source
  reads before its loop.
- Python exceptions that propagate become `Err`/`Fail` results that carry a
  `Fault`.

Files:

- `wrappers.dfy`, `seqs.dfy`, `lists.dfy`: shared definitions (Option, Result,
  key search over sequences, the by-reference list).
- `order.dfy`: arrangements by a key: the BINARY (code-point) order of
  strings that `list.sort` and SQLite's text indexes use, and integer order.
- `decimal.dfy`: decimal text for `str(n)` and `int(s)`.
- `dates.dfy`: `datetime` values and the `%Y-%m-%d %H:%M:%S` text form.
- `model.dfy`, `communications.dfy`: the domain records and their list helpers.
- `domain_database.dfy`: the primitive store.
- `app_database.dfy`: the typed store.
- `actions.dfy`: the pipeline.
- `messages.dfy`: paging, keyboards and message text.

## Model

| member | source | states |
|---|---|---|
| Model.FindMangaByName | src/domain/model.py:48-56 | a found manga is in the list and has the name; None exactly when no manga in the list has it |
| Model.FindMangaByLink | src/domain/model.py:59-67 | a found manga is in the list and has the link; None exactly when no manga has it |
| Model.ChapterListed | src/domain/model.py:70-79 | true exactly when some listed chapter has the same name and the same number |
| Model.SearchMangaByName | src/domain/model.py:48-56 | the loop returns the first manga with that name, or None when there is none |
| Model.SearchMangaByLink | src/domain/model.py:59-67 | the loop returns the first manga with that link, or None when there is none |
| Model.SearchChapterInList | src/domain/model.py:70-79 | the loop answers whether a chapter with that name and number is listed |
| Model.AddManga | src/domain/model.py:86-110 | appends exactly when the list and manga exist, name and link are non-empty, and no manga has that name; otherwise the list is unchanged |
| Model.DelManga | src/domain/model.py:113-138 | removes exactly the first manga with that name, and succeeds exactly when one exists and the name is non-empty; otherwise nothing changes |
| Model.EpisodeChapters | src/domain/model.py:145-155 | one chapter per episode, in order; name and number are both the episode text; the date is the reading of the clock |
| Model.DictToModel | src/domain/model.py:141-157 | the nested loop yields the chapters of every manga, in mapping order |
| Model.ChaptersOfAppend | src/domain/model.py:141-157 | converting two mappings one after the other is converting their concatenation |
| Model.ChaptersOfLength | src/domain/model.py:141-157 | the number of chapters is the total number of scraped episodes |
| Model.ChaptersOfSound | src/domain/model.py:141-157 | every chapter produced comes from an episode of its manga, with name equal to number and the shared date |
| Model.ChaptersOfComplete | src/domain/model.py:141-157 | every scraped episode of every manga yields a chapter |
| Communications.SearchChatById | src/domain/communications.py:43-51 | returns a chat exactly when one has the id, and then the first one |
| Communications.SearchSuscriptionsByChatId | src/domain/communications.py:54-62 | exactly the chat's subscriptions, in list order |
| Communications.SearchSuscriptionsByManga | src/domain/communications.py:65-74 | exactly the subscriptions to a manga of that name, in list order |
| Communications.AddChat | src/domain/communications.py:79-101 | appends exactly when the list and chat exist, the id is non-zero and not yet listed; otherwise nothing changes |
| Communications.DelChat | src/domain/communications.py:106-129 | removes exactly the first chat with the id, and succeeds exactly when one is listed |
| Communications.AddSuscription | src/domain/communications.py:134-160 | appends a subscription with an empty last chapter exactly when the chat does not already follow a manga of that name; otherwise nothing changes |
| Communications.DelSuscription | src/domain/communications.py:165-195 | removes exactly the first subscription with that chat and manga name, and succeeds exactly when one exists |
| Communications.SelectBothKeys | src/domain/communications.py:145-148 | filtering by chat and then by manga name selects exactly the subscriptions with both keys |
| Communications.AddSuscriptionKeepsKeysUnique | src/domain/communications.py:134-160 | adding a subscription never gives two subscriptions the same chat and manga name |
| Dates.Format | src/app/database.py:244 | the stored text of a date is always 19 characters long |
| Dates.BeforeIsStrictTotalOrder | src/app/database.py:183 | the `<` on dates is irreflexive, transitive and total |
| Dates.FormatParse | src/app/database.py:141 | parsing the stored text of a date gives the date back, less its microseconds |
| Dates.ParseFormat | src/app/database.py:141 | text that parses is exactly the stored text of the date it parses to |
| Decimal.ParseNat | src/app/handlers.py:106 | `int(s)` on ASCII text: succeeds exactly on a non-empty run of '0'..'9', with its decimal value, which written back at the text's width gives the text |
| Decimal.NatToStringRoundTrip | src/app/messages.py:135 | reading back `str(n)` gives `n` |
| DomainDatabase.Apply | src/domain/database.py:91-136 | an insert fails exactly when its primary key is taken; a delete or update fails exactly when its key is absent; no other table changes |
| DomainDatabase.WriteOutcome | src/domain/database.py:281-426 | a write raises only when no connection was set; it reports success exactly when the store is open, the schema exists and the statement succeeds; otherwise the file is unchanged |
| DomainDatabase.Written | src/app/actions.py:106-132 | what an open store holds after a write whose answer is ignored |
| DomainDatabase.Database.Snapshot | src/domain/database.py:175-279 | reads see the tables exactly when the connection is open and the schema exists |
| DomainDatabase.Database.constructor | src/domain/database.py:139-142 | a new manager has no connection |
| DomainDatabase.Database.Init | src/domain/database.py:144-162 | opening the file makes the connection open on its content; a file that cannot be opened raises and changes nothing |
| DomainDatabase.Database.Create | src/domain/database.py:164-173 | creates the empty tables only when they are missing; raises without a live connection |
| DomainDatabase.Database.Close | src/domain/database.py:428-430 | closes any set connection and keeps the file; raises when no connection was ever set |
| DomainDatabase.Database.ReadChats | src/domain/database.py:175-185 | the chat rows in the order of `ChatsById`, or the fault the read raises |
| DomainDatabase.ChatsByIdIsOrdered | src/domain/database.py:16-21 | the full scan of `chats` returns every row once, in ascending id, since the integer primary key is the rowid |
| DomainDatabase.Database.ReadChatById | src/domain/database.py:187-200 | a row exactly when the id is stored, and then the first such row |
| DomainDatabase.Database.ReadSuscriptions | src/domain/database.py:202-212 | every subscription row in insertion order (the rowid scan), or the fault |
| DomainDatabase.Database.ReadSuscriptionByChat | src/domain/database.py:214-226 | the chat's subscription rows in the order of `SuscriptionsOfChat`, or the fault |
| DomainDatabase.SuscriptionsOfChatIsOrdered | src/domain/database.py:67-69 | `WHERE chat = ?` uses the (chat, manga) key index: exactly the chat's rows, each once, in manga-name order |
| DomainDatabase.SuscriptionsOfChatIsTheOrderedSelection | src/domain/database.py:23-32 | with the primary key unique, the manga-ordered arrangement of a chat's rows is the only one |
| DomainDatabase.Database.ReadSuscriptionByManga | src/domain/database.py:228-240 | exactly the manga's subscription rows, in insertion order, since no index leads with `manga` |
| DomainDatabase.Database.ReadMangaChapters | src/domain/database.py:242-250 | every chapter row in insertion order (the rowid scan), or the fault |
| DomainDatabase.Database.ReadMangaChapterByMangaName | src/domain/database.py:252-262 | the manga's chapter rows in the order of `ChaptersOfManga`, or the fault |
| DomainDatabase.ChaptersOfMangaIsOrdered | src/domain/database.py:79-81 | `WHERE manga = ?` uses the (manga, name) key index: exactly the manga's chapter rows, each once, in name order |
| DomainDatabase.ChaptersOfMangaIsTheOrderedSelection | src/domain/database.py:34-44 | with the primary key unique, the name-ordered arrangement of a manga's chapters is the only one |
| DomainDatabase.Database.ReadMangas | src/domain/database.py:264-270 | every manga row in insertion order (the rowid scan), or the fault |
| DomainDatabase.Database.ReadMangaByName | src/domain/database.py:272-279 | exactly the manga rows with that name |
| DomainDatabase.Database.Execute | src/domain/database.py:281-426 | one statement and its error handling: the answer and the new file are the write outcome; the primary keys stay unique |
| DomainDatabase.Database.InsertChat | src/domain/database.py:281-292 | the write outcome of inserting the chat |
| DomainDatabase.Database.InsertSuscription | src/domain/database.py:294-310 | the write outcome of inserting the subscription |
| DomainDatabase.Database.InsertMangaChapter | src/domain/database.py:312-326 | the write outcome of inserting the chapter |
| DomainDatabase.Database.InsertManga | src/domain/database.py:328-338 | the write outcome of inserting the manga |
| DomainDatabase.Database.DeleteChat | src/domain/database.py:340-350 | the write outcome of deleting the chat |
| DomainDatabase.Database.DeleteSuscription | src/domain/database.py:352-363 | the write outcome of deleting the subscription |
| DomainDatabase.Database.DeleteMangaChapter | src/domain/database.py:365-376 | the write outcome of deleting the chapter |
| DomainDatabase.Database.DeleteManga | src/domain/database.py:378-388 | the write outcome of deleting the manga |
| DomainDatabase.Database.UpdateChatName | src/domain/database.py:390-400 | the write outcome of renaming the chat |
| DomainDatabase.Database.UpdateSuscriptionLast | src/domain/database.py:402-414 | the write outcome of setting the subscription's last chapter |
| DomainDatabase.Database.UpdateManga | src/domain/database.py:416-426 | the write outcome of setting the manga's last chapter |
| DomainDatabase.ApplyKeepsKeysUnique | src/domain/database.py:16-53 | no successful statement breaks a primary key of the schema |
| DomainDatabase.InsertAppendsRow | src/domain/database.py:91-106 | a successful insert adds exactly its row, after the rows inserted before it |
| DomainDatabase.InsertedChapterReadsBack | src/domain/database.py:312-326 | after a chapter insert the row is the last of the full scan, and reading the manga's chapters gives the old ones with the new row inserted at its name's place |
| DomainDatabase.DeleteSuscriptionRemovesOnlyItsRow | src/domain/database.py:352-363 | deleting a subscription removes its row and keeps the others in order |
| DomainDatabase.UpdateSuscriptionLastChangesOnlyLast | src/domain/database.py:402-414 | the update changes only the matching row, and only its last chapter |
| DomainDatabase.UpdateMangaChangesOnlyLastChapter | src/domain/database.py:416-426 | the update changes only the matching manga row, and only its last chapter |
| AppDatabase.ChatsView | src/app/database.py:39-49 | one chat per row, with the row's id and name |
| AppDatabase.ChapterOfRow | src/app/database.py:135-144 | a row converts exactly when its date parses; the chapter keeps every column, and its date prints back to the stored text |
| AppDatabase.ChaptersView | src/app/database.py:126-146 | the conversion succeeds exactly when every stored date parses, and then converts row by row |
| AppDatabase.LatestChapter | src/app/database.py:181-184 | there is no latest chapter exactly when there are no chapters; a latest one is one of them |
| AppDatabase.LatestIsFirstOfLatestDate | src/app/database.py:181-184 | the latest chapter is the first one, in read order, carrying the greatest date |
| AppDatabase.LatestIsSmallestNameOfLatestDate | src/app/database.py:176-186 | as the chapters are read in name order, the latest chapter has the greatest date and, among the chapters of that date, the name that sorts first |
| AppDatabase.Joined | src/app/database.py:105-124 | a row joins exactly when its chat and manga exist; the subscription then carries that chat, that manga and the row's last chapter |
| AppDatabase.JoinSucceedsIffReferencesResolve | src/app/database.py:63-82 | reading subscriptions succeeds exactly when every row's chat and manga resolve, and keeps the rows in order |
| AppDatabase.StoredLast | src/app/database.py:253-263 | a missing last chapter is stored as empty text, and a present one as itself |
| AppDatabase.StoredLastChapterIsNeverRead | src/app/database.py:169-188 | the mangas' stored last-chapter column never affects what the typed reads return |
| AppDatabase.InsertedChapterReadsBackTruncated | src/app/database.py:236-251 | an inserted chapter reads back among the manga's earlier chapters at its name's place, with its date cut to whole seconds |
| AppDatabase.Database.State | src/app/database.py:25-37 | reads see the tables exactly when the manager is set and open and the schema exists |
| AppDatabase.Database.constructor | src/app/database.py:25-37 | a new typed store has no manager |
| AppDatabase.Database.Init | src/app/database.py:25-37 | creates a new manager and the schema when the file opens; otherwise it raises |
| AppDatabase.Database.Close | src/app/database.py:339-341 | closing leaves the store unreadable and keeps the file |
| AppDatabase.Database.ReadChats | src/app/database.py:39-49 | the chats view of the chat rows in id order, or the fault |
| AppDatabase.Database.ReadChatById | src/app/database.py:51-61 | a chat exactly when that id is stored, and then the first such row |
| AppDatabase.Database.ConvertChapters | src/app/database.py:135-146 | the loop converts row by row and stops at the first date that does not parse |
| AppDatabase.Database.ConvertRow | src/app/database.py:137-143 | one row's conversion |
| AppDatabase.Database.ReadMangaChapters | src/app/database.py:126-146 | the chapters view of every stored chapter row |
| AppDatabase.Database.ReadMangaChapterByMangaName | src/app/database.py:148-167 | the chapters view of the manga's chapter rows, in name order |
| AppDatabase.Database.Latest | src/app/database.py:181-184 | the loop picks the reference latest chapter |
| AppDatabase.Database.MangasOf | src/app/database.py:176-186 | the loop yields each row's manga with its latest chapter, stopping at the first failure |
| AppDatabase.Database.MangaOf | src/app/database.py:178-186 | one manga row with its chapters read and its latest chapter chosen |
| AppDatabase.Database.ReadMangas | src/app/database.py:169-188 | the mangas view of every stored manga row |
| AppDatabase.Database.ReadMangaByName | src/app/database.py:190-209 | the mangas view of the rows with that name |
| AppDatabase.Database.JoinRows | src/app/database.py:111-122 | the loop joins row by row and stops at the first dangling reference |
| AppDatabase.Database.JoinRow | src/app/database.py:112-121 | one row's join |
| AppDatabase.Database.JoinFresh | src/app/database.py:63-82 | joins against the chats and mangas read at call time |
| AppDatabase.Database.ReadSuscriptions | src/app/database.py:63-82 | the joined view of every subscription row |
| AppDatabase.Database.ReadSuscriptionByChat | src/app/database.py:84-103 | the joined view of the chat's subscription rows, in manga-name order |
| AppDatabase.Database.ReadSuscriptionByManga | src/app/database.py:105-124 | the joined view of the manga's subscription rows |
| AppDatabase.Database.InsertChat | src/app/database.py:211-220 | forwards the chat insert; without a manager it raises |
| AppDatabase.Database.InsertSuscription | src/app/database.py:222-234 | forwards the subscription insert |
| AppDatabase.Database.InsertMangaChapter | src/app/database.py:236-251 | forwards the chapter insert, with the date in its stored text form |
| AppDatabase.Database.InsertManga | src/app/database.py:253-263 | forwards the manga insert, with a missing last chapter stored as empty text |
| AppDatabase.Database.DeleteChat | src/app/database.py:265-273 | forwards the chat delete |
| AppDatabase.Database.DeleteSuscription | src/app/database.py:275-283 | forwards the subscription delete |
| AppDatabase.Database.DeleteMangaChapter | src/app/database.py:285-293 | forwards the chapter delete |
| AppDatabase.Database.DeleteManga | src/app/database.py:295-303 | forwards the manga delete |
| AppDatabase.Database.UpdateChatName | src/app/database.py:305-313 | forwards the rename |
| AppDatabase.Database.UpdateSuscriptionLast | src/app/database.py:315-327 | forwards the last-chapter update of the subscription |
| AppDatabase.Database.UpdateMangaLast | src/app/database.py:329-337 | forwards the last-chapter update of the manga |
| Actions.ExploreWeb | src/app/actions.py:84-142 | without chapters nothing happens; on an unreadable store the run raises unless there is nothing to do; otherwise the store ends as the ingestion fold leaves it |
| Actions.IngestAll | src/app/actions.py:105-142 | the loop is the fold of the per-chapter step, stopping at the first raise |
| Actions.IngestChapter | src/app/actions.py:106-142 | one chapter: insert the manga if the snapshot lacks it, then insert the chapter unless its name and number are listed |
| Actions.ExploreOnlyAppends | src/app/actions.py:105-142 | ingestion only adds rows: every row stored before is still stored |
| Actions.ExploreStoresEveryEpisode | src/app/actions.py:84-142 | after a run that does not raise, every scraped manga and episode is stored |
| Actions.ExploredStoresAll | src/app/actions.py:105-142 | after a run that does not raise, every chapter is stored under its manga |
| Actions.ExploreTwiceWritesNothing | src/app/actions.py:84-142 | exploring the same page again, at any later time, writes nothing |
| Actions.KnownMangasAreRows | src/app/actions.py:103-106 | a manga is in the snapshot exactly when its row is stored |
| Actions.ListedIsStored | src/app/actions.py:122-125 | a chapter found among the manga's chapters is a stored row |
| Actions.ProcessReporting | src/app/actions.py:36-77 | on a readable store the notices and the new store are those of the reconciliation fold; otherwise it raises and sends nothing |
| Actions.ReconcileAll | src/app/actions.py:43-77 | the loop is the fold of the per-subscription step over the snapshot |
| Actions.ReconcileSubscription | src/app/actions.py:44-77 | one subscription: an unknown manga or one with no chapters is skipped; otherwise, when its last chapter differs, the chat is notified and the row updated |
| Actions.ReconcileChangesOnlyLast | src/app/actions.py:63-72 | reporting changes only the last-chapter column of subscriptions |
| Actions.ReportingAdvancesEverySubscription | src/app/actions.py:36-77 | after reporting, every subscription row holds its manga's latest chapter when that manga has one |
| Actions.SecondReportingIsQuiet | src/app/actions.py:36-77 | reporting again straight away sends nothing and writes nothing |
| Actions.SettledIsQuiet | src/app/actions.py:63-64 | subscriptions already at their manga's latest chapter cause no notice and no write |
| Order.NotAfterTotal | src/app/messages.py:107 | any two names compare one way or the other |
| Order.NotAfterTransitive | src/app/messages.py:107 | the string order is transitive |
| Order.NotAfterAntisymmetric | src/app/messages.py:107 | two names that compare both ways are equal |
| Order.SortByIsSortedPermutation | src/app/messages.py:107 | sorting by a key orders the elements and keeps exactly the same elements |
| Order.InsertBySplits | src/domain/database.py:79-81 | an element inserted by key goes between the others, which keep their order |
| Order.SortedByIsUnique | src/domain/database.py:79-81 | two key-ordered arrangements of the same elements, where a key names one element, are identical |
| Order.SortBySnoc | src/domain/database.py:312-326 | ordering rows with one more row is inserting that row into the ordered rows |
| Order.SortByNumberIsSortedPermutation | src/domain/database.py:55-57 | ordering by an integer key orders the elements and keeps exactly the same elements |
| Messages.SortedIsUnique | src/app/messages.py:107 | two ordered arrangements of the same names are identical, so any correct sort gives the result of `list.sort` |
| Messages.SortIdempotent | src/app/messages.py:125 | sorting a sorted list changes nothing |
| Messages.SortInPlace | src/app/messages.py:107 | the caller's list is left sorted |
| Messages.ClampedPage | src/app/messages.py:30-42 | the page shown never starts past the last full page |
| Messages.PageItems | src/app/messages.py:26-51 | the item row is the page's slice of the items; the navigation row always has "X", has "<" exactly past the first page and ">" exactly when items remain |
| Messages.PageItemsIdempotent | src/app/messages.py:26-51 | asking for the page that was shown shows it again |
| Messages.PastTheEndIsEmptyLastPage | src/app/messages.py:35-39 | when the page size divides the count, a page past the end is an empty page after the last |
| Messages.NextPageHasItems | src/app/messages.py:48-51 | when ">" is offered, the next page exists and has items |
| Messages.ItemOnItsPage | src/app/messages.py:26-51 | every item appears on page n/k, at its offset |
| Messages.SplitJoin | src/app/handlers.py:98-99 | splitting joined parts that have no separator gives the parts back |
| Messages.CallbackRoundTrip | src/app/handlers.py:98-99 | the handler recovers the selection and the page from a button's data |
| Messages.Label | src/app/messages.py:133 | a label is the name's prefix of at most 40 characters, the whole name when it fits |
| Messages.PgTextInlineKeyboard | src/app/messages.py:112-152 | the caller's list is left sorted, and the keyboard is the as-written keyboard of the requested page |
| Messages.BuildKeyboard | src/app/messages.py:128-150 | the loop builds the as-written keyboard: one button row per page row |
| Messages.RowKeyboard | src/app/messages.py:129-150 | one button row: navigation buttons when the row holds "<", ">" or "X", item buttons otherwise |
| Messages.NavRowIsNav | src/app/messages.py:129 | the navigation row is always styled as navigation |
| Messages.KeyboardIsIntended | src/app/messages.py:129 | when no item on the page is named like a navigation symbol, the as-written keyboard is the intended one |
| Messages.PyIndex | src/app/messages.py:109 | indexing succeeds exactly for positions from minus the length up to the length |
| Messages.PgGetElementByPosition | src/app/messages.py:103-109 | the caller's list is left sorted, and the element is taken at the page's offset plus the position |
| Messages.ElementAtPage | src/app/messages.py:108-109 | a page within the item count is used as given |
| Messages.ItemButtonSelectsItem | src/app/handlers.py:98-106 | with the intended keyboard, pressing an item button selects that very item again, even from a list read back in another order |
| Messages.NavButtonSelectsSymbol | src/app/handlers.py:98-101 | a navigation button's selection is its symbol and is caught by the handler's symbol check |
| Messages.NavNamedItemBreaksSelection | src/app/messages.py:129 | an item named "X" makes the item row navigation-styled, so the handler cannot read a position from it |
| Messages.ThirdMangaSelected | src/app/handlers.py:98-106 | the data `tg_add_manga:2:0` selects the third manga in sorted order |
| Messages.PrepareMessage | src/app/messages.py:93-100 | a text is sent as it is; a list is concatenated and fails when empty; words are joined by spaces |
| Messages.ConcatAppend | src/app/messages.py:96 | concatenating one more part appends it |
| Messages.WordsRoundTrip | src/app/messages.py:100 | words without spaces are recovered by splitting the message |

## Left out

- Downloading and parsing the web page (`src/infrastructure/web.py`) is not part of this model. `explore_web` starts from the parsed mapping, given as a parameter.
- The clock is a parameter. `dict_to_model` reads `datetime.now()` once per chapter; the model uses one reading for the whole call.
- Telegram delivery (`notify_suscribers`, the pyrogram client and its assert) is not part of this model. `process_reporting` records each notice as a chapter–chat pair, whatever the delivery outcome, since the caller ignores it.
- The handlers, commands, cron scheduling, locks, asynchrony and logging are left out. Only the callback-data round trip of the handlers is modelled.
- `load_lang_dict` is left out: it is file and JSON input.
- How `MODULE_PATH` and the database file path are resolved from the environment is left out. `init` takes the file's content and whether it opens.
- SQLite itself is left out. No SELECT has an ORDER BY, so the model fixes the order the query plans for this schema give. Full scans return insertion (rowid) order, except for `chats`, which comes back in id order because its integer primary key is the rowid. `WHERE chat = ?` on subscriptions and `WHERE manga = ?` on chapters go through the primary-key index and come back in the order of the key's second column. `WHERE manga = ?` on subscriptions is a full scan. Another plan, such as one chosen after ANALYZE or by another SQLite version, could return another order; that is not modelled. Foreign keys are not enforced, as in the schema as run.
- Chat ids are unbounded integers; SQLite stores 64-bit integers.
- Dataclass fields typed `str` or `int` are never None in the model.
- Decimal.ParseNat: only ASCII digit strings parse. Python's `int` also accepts a sign, surrounding whitespace, underscores between digits and non-ASCII decimal digits. For example, "-1" would select an item through a negative index. The model treats all of those as failures. A selection normally holds a position the bot wrote itself. Only the keyboard fault under Findings puts an item name there, and then a manga named, say, "-1" would be read by Python as a number.
- Python's `strptime` also accepts some shorter field widths. Only the fixed-width form that `strftime` writes is parsed here; that is the only form the program stores.
- A write on an open store never raises in the model. Its answer is only logged by the pipeline.
- Messages.PageItems: requires a positive page size. A size of zero raises ZeroDivisionError in the source, and callers pass 1 or the default 3.
- Messages.PgTextInlineKeyboard: requires a positive page size, for the same reason.
- Messages.ItemButtonSelectsItem: requires a positive page size and a source without ':', as every caller's source is.
- Messages.PrepareMessage: a list whose first element is not a string (TypeError) is not modelled.
- Actions.ExploreTwiceWritesNothing: assumes the mangas are readable after the first run, that is, every stored chapter date parses.
- `InlineKeyboardMarkup` and `InlineKeyboardButton` are modelled as rows of text and callback-data pairs.

## Findings

| source | as written | input that shows it | evidently intended | confidence | as-written member | corrected member |
|---|---|---|---|---|---|---|
| src/app/messages.py:129 | a row is given navigation callbacks when it contains "<", ">" or "X" as an element, so an item of that name turns the whole item row into navigation buttons whose data carry item names instead of positions | items ["X", "A"], page size 3, page 0: the "A" button's data is `tg_add_manga:A:0` and `int("A")` raises in the handler | the first row is always item buttons carrying positions, and the second always navigation | not executed | Messages.NavNamedItemBreaksSelection | Messages.ItemButtonSelectsItem |
