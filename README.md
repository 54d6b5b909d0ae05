# Channel directory, admin authority and invite-link cache of a Telegram file-store bot

This project models the stateful core of a Telegram bot that keeps a
directory of channels in MongoDB and lets users search it:

- **The store** (`Database`, `database.dfy`). A `MongoDB` object holds
  the following collections as fields that its methods reassign:
  - the `groups` collection of channel records;
  - the `admins` collection of dynamically granted administrators;
  - the `Files` documents, keyed by link;
  - the two user-id collections.

  Root administrators come from the configuration. They are a constant of
  the object, and every admin check consults them first.
- **The invite-link cache and the `/channel` search** (`GFilter`,
  `gfilter.dfy`).
  - An `InviteLinkCache` object holds `channel_cache`, with its one-hour
    lifetime and its revoke-then-reissue policy.
  - `SearchChannels` walks the stored records. It matches live titles
    case-insensitively, fetches a link for each hit, and deletes records
    that Telegram reports as invalid or private.
- **Chat lifecycle handlers** (`Chnl`, `chnl.dfy`):
  - registration when the bot joins a supergroup or channel;
  - `/leave`, with its argument parsing;
  - `/groups`, which numbers the reachable channels and deletes private ones.
- **Admin commands** (`Cmds`, `cmds.dfy`): `/add_admin` and
  `/remove_admin`, both of which refuse root ids, and `/admin_list`.
- **The admin message filter** (`PyroFilters`, `admins.dfy`).
- **The website link rewrite** (`WebLink`, `weblink.dfy`).
- **Shared helpers** (`PyStr`, `pystr.dfy`). These are the Python string
  built-ins the handlers use:
  - `split()` and `split(None, n)`;
  - `strip`, `lower`, `in`;
  - `str(int)` and `int(str)`, including the sign, surrounding whitespace
    and `_` digit separators. Digits are the ASCII digits only, and
    whitespace is that of `str.isspace` (see "Left out").

  `Wrappers` holds the `Option` type, which stands for Python's `None`.

### Telegram and the clock

Every Telegram call is an oracle value passed in by the caller.
- A `LinkProbe` says how a revoke and an export go.
- A `ChannelProbe` or `MembersLookup` says what `get_chat` answers for one
  stored record.
- A `NewChatProbe` covers the member count, the export and the alert.
- A `LeaveProbe` covers the farewell message and the leave.
- The `mentions` map covers `get_users`.

The calls that `get_invite_link` makes are returned as a sequence of
`Call` values, so that their order and number can be stated. The clock
reading is an integer parameter.

### How the cache and the error checks behave

- **Expired entry on a failed reissue.** A failed reissue leaves the
  expired entry in place (bot/plugins/filter/gfilter.py:53-67).
- **No eviction on delete.** Nothing evicts a cache entry when its record
  is deleted.
- **Error matching.** `search_channels` recognises a private channel by the
  text `CHANNEL_PRIVATE` in the error message; `groups_list` recognises it
  by the exception class.

### Behaviours worth knowing

- **A bare `/channel` searches for its own name.** `split(maxsplit=1)[-1]`
  of the text `/channel` is `/channel` itself, so the query is
  `"/channel"` (`GFilter.BareCommandSearchesItself`).
- **The search handler never fires by default.** Its `filter_text` refuses
  any text that starts with `/`, so with the default command prefix the
  handler does not run. Dispatch is not part of this model.
- **`/leave` by name always ends in the error reply.** The chat argument
  stays text when `int()` rejects it. `delete_chat` then calls `int()` on
  it again and raises after the bot has already left, so the store is
  unchanged (`Chnl.LeaveAChat`).
- **`add_chat` does not deduplicate.** Only the guard in
  `handle_new_chat` keeps ids unique (`Chnl.RegistrationKeepsIdsUnique`).

## Model

| member | source | states |
|---|---|---|
| Database.FindChat | bot/database/mongo_db.py:192-195 | `get_chat` gives `None` (the source's `False`) exactly when no record has the id; otherwise it gives the status of a record with that id |
| Database.NewGroup | bot/database/mongo_db.py:167-185 | the new record keeps the title and reads back under its id as `{is_disabled: False, reason: ""}` |
| Database.WithoutChat | bot/database/mongo_db.py:197-199 | `delete_many`: never longer than before, and no surviving record has the id; `WithoutChatSpec` and `WithoutChatKeepsOrder` state the rest |
| Database.WithoutChatSpec | bot/database/mongo_db.py:197-199 | `delete_many` removes every copy of a record with the id and keeps every other record with its multiplicity |
| Database.WithoutChatsSpec | bot/database/mongo_db.py:197-199 | deleting several ids in turn removes exactly the records that carry one of them |
| Database.AddedChatIsFound | bot/database/mongo_db.py:167-195 | after `add_chat`, a new id reads back as `{is_disabled: False, reason: ""}`, an already stored id keeps its first record, and other ids read as before |
| Database.DeletedChatIsGone | bot/database/mongo_db.py:192-199 | after `delete_chat` the id is not found, and every other id reads back as before |
| Database.WithoutChatKeepsOrder | bot/database/mongo_db.py:197-199 | deletion distributes over concatenation, so the surviving records keep their store order |
| Database.FirstAdminIndex | bot/database/mongo_db.py:238-242 | the record the model's `delete_one` removes: it has the id, and no earlier record does |
| Database.RemoveFirstAdmin | bot/database/mongo_db.py:238-242 | `delete_one` removes exactly one record when the id is stored and none otherwise; `RevokeRemovesGrant`, `RevokeKeepsIdsUnique` and `RevokeKeepsOtherGrants` state the rest |
| Database.Dedup | bot/database/mongo_db.py:252-256 | `list(set(...))` keeps exactly the same ids, each once |
| Database.GrantKeepsIdsUnique | bot/database/mongo_db.py:230-236 | a grant of an id that is not stored keeps the stored ids pairwise distinct |
| Database.RevokeRemovesGrant | bot/database/mongo_db.py:238-242 | when stored ids are unique, a revoke leaves no stored grant for the id |
| Database.RevokeKeepsIdsUnique | bot/database/mongo_db.py:238-242 | a revoke keeps the stored ids pairwise distinct |
| Database.RevokeKeepsOtherGrants | bot/database/mongo_db.py:238-242 | a revoke changes no other id's stored grant |
| Database.MongoDB.constructor | bot/database/mongo_db.py:21-36 | a fresh store: the given root admins, empty collections, and no id granted twice |
| Database.MongoDB.AddUser | bot/database/mongo_db.py:38-55 | the upsert adds the id to `Users` and is acknowledged |
| Database.MongoDB.AddFile | bot/database/mongo_db.py:57-80 | the upsert sets the document under the link and touches no other link |
| Database.MongoDB.DeleteLinkDocument | bot/database/mongo_db.py:82-96 | true exactly when a document was there; afterwards the link is gone and no other link changes |
| Database.MongoDB.GetLinkDocument | bot/database/mongo_db.py:98-112 | the stored document for the link, or `None` when there is none |
| Database.MongoDB.GetUserIds | bot/database/mongo_db.py:114-139 | the ids of both user collections |
| Database.MongoDB.Stats | bot/database/mongo_db.py:141-150 | the number of file documents and of users |
| Database.MongoDB.CleanupUsers | bot/database/mongo_db.py:152-164 | each collection loses exactly the listed ids |
| Database.MongoDB.AddChat | bot/database/mongo_db.py:187-190 | always appends one new enabled record with no duplicate check, so the count grows by exactly one |
| Database.MongoDB.GetChat | bot/database/mongo_db.py:192-195 | `None` exactly when no record has the id; otherwise the status of a record with the id |
| Database.MongoDB.DeleteChat | bot/database/mongo_db.py:197-199 | every record with the id goes, the rest stay in order, and the id is then absent |
| Database.MongoDB.TotalChatCount | bot/database/mongo_db.py:201-204 | the number of records |
| Database.MongoDB.GetAllChats | bot/database/mongo_db.py:206-208 | the records in store order |
| Database.MongoDB.IsAdmin | bot/database/mongo_db.py:244-250 | true for a root id, or for a stored grant; the store is consulted exactly when the id is not a root id |
| Database.MongoDB.AddAdmin | bot/database/mongo_db.py:230-236 | inserts exactly when the id was not yet an admin (root ids included) and answers whether it did; the id is an admin afterwards; no id is ever granted twice |
| Database.MongoDB.RemoveAdmin | bot/database/mongo_db.py:238-242 | deletes at most one record with the id and answers true iff one existed; a root id stays an admin; in a store with no id granted twice, a non-root id is no longer an admin and that stays so |
| Database.MongoDB.GetAllAdmins | bot/database/mongo_db.py:252-256 | exactly the union of stored and root ids, without duplicates |
| Database.GrantTwice | bot/database/mongo_db.py:230-256 | granting a non-root id twice answers true then false, and the admin list holds the id exactly once |
| Database.FileLifecycle | bot/database/mongo_db.py:57-112 | a stored file document reads back as written; after its deletion the link is unknown |
| GFilter.InviteStep | bot/plugins/filter/gfilter.py:16-67 | no call at all iff the entry is fresh, in which case the cached link comes back unchanged; otherwise the calls are exactly the revoke of the stored link (when an entry exists), the export, and the admin-required report (only on `ChatAdminRequired`), and the answer is the exported link itself when it is non-empty and nothing otherwise; an answered link is cached under the chat id stamped with the entry time; a failure leaves the cache as it was; no other key changes; only non-empty links are ever cached |
| GFilter.RevokeBeforeExport | bot/plugins/filter/gfilter.py:25-45 | for an expired entry, the old link is revoked first and the export comes next |
| GFilter.ExpiryBoundary | bot/plugins/filter/gfilter.py:22 | the freshness test is strict: an entry aged 3599 answers from the cache, and one aged exactly 3600 is re-issued |
| GFilter.RevokeFailureSwallowed | bot/plugins/filter/gfilter.py:26-35 | the revoke's outcome changes nothing: a failure is swallowed and issuing proceeds |
| GFilter.RecallWithinLifetime | bot/plugins/filter/gfilter.py:20-52 | after a successful issue, a call within the lifetime answers the same link with no call, whatever Telegram would say |
| GFilter.InviteLinkCache.constructor | bot/plugins/filter/gfilter.py:12 | the cache starts empty |
| GFilter.InviteLinkCache.GetInviteLink | bot/plugins/filter/gfilter.py:16-67 | answer, new cache and calls are those of `InviteStep`; only non-empty links are kept, and a returned link is non-empty |
| GFilter.SearchQuery | bot/plugins/filter/gfilter.py:73 | the query `split(maxsplit=1)[-1].lower().strip()`, missing exactly when nothing but whitespace is left after `lstrip`; `NoQueryForBlankText`, `QueryIsArgument` and `BareCommandSearchesItself` state what it is |
| GFilter.NoQueryForBlankText | bot/plugins/filter/gfilter.py:73 | `split(maxsplit=1)[-1]` raises exactly when the text is all whitespace |
| GFilter.QueryIsArgument | bot/plugins/filter/gfilter.py:73 | the query is the text after the command word and its whitespace, lower-cased, then stripped |
| GFilter.BareCommandSearchesItself | bot/plugins/filter/gfilter.py:73 | a bare command word is its own query, lower-cased |
| GFilter.SearchStep | bot/plugins/filter/gfilter.py:81-104 | one iteration of the loop; `StepExtendsMatched` and `StepListsIffLinked` state its contract |
| GFilter.SearchUpTo | bot/plugins/filter/gfilter.py:77-104 | the loop's state after the first records; the lemmas below state what it lists and deletes |
| GFilter.StepExtendsMatched | bot/plugins/filter/gfilter.py:88-92 | one iteration only appends to the results |
| GFilter.StepListsIffLinked | bot/plugins/filter/gfilter.py:85-92 | one iteration appends a result exactly when the live title matches and the link step answers a non-empty link, and that result is the live title with that link |
| GFilter.ResultsMatchQuery | bot/plugins/filter/gfilter.py:85-92 | every result's title, lower-cased, contains the query, and its link is non-empty |
| GFilter.ResultsComeFromLinkedRecords | bot/plugins/filter/gfilter.py:80-104 | every result comes from an earlier record whose lookup gave the result's title, which matches the query, and whose link step answered the result's link; a healed or non-matching record gives no result |
| GFilter.OneResultPerLinkedRecord | bot/plugins/filter/gfilter.py:80-92 | the number of results is the number of records whose title matched and whose link step answered |
| GFilter.ResultsFollowStoreOrder | bot/plugins/filter/gfilter.py:80-92 | a record whose title matched and whose link step answered has its result right after the results of the earlier records of that kind, so no record is listed twice and results follow store order |
| GFilter.ListedWhenLinked | bot/plugins/filter/gfilter.py:85-92 | a record whose live title matches, and whose link step answers a non-empty link (fresh from the cache or newly issued), is listed with that link |
| GFilter.ListedWhenIssued | bot/plugins/filter/gfilter.py:85-92 | a matching record whose export yields a non-empty link gets an answer and is listed with it; when its cache entry is not fresh, it is listed with the exported link itself |
| GFilter.ListedFromCache | bot/plugins/filter/gfilter.py:20-92 | a matching record with a fresh cached link is listed with that link, whatever the export would do |
| GFilter.ResultsGrowInOrder | bot/plugins/filter/gfilter.py:80-92 | results only ever grow at the end, so they keep store order |
| GFilter.HealedExactly | bot/plugins/filter/gfilter.py:94-104 | an id is deleted exactly when a lookup of it raised `ChannelInvalid` or an error mentioning `CHANNEL_PRIVATE` |
| GFilter.SurvivorsWereReachable | bot/plugins/filter/gfilter.py:94-104 | after the search, a record survives with its multiplicity exactly when no lookup of its id healed it |
| GFilter.VisitRecord | bot/plugins/filter/gfilter.py:81-104 | one iteration: the store and the cache change as one loop step prescribes, and only the visited id can be deleted |
| GFilter.VisitRecords | bot/plugins/filter/gfilter.py:77-104 | the loop over the records in store order: results, calls, cache and the store after deletions are those of `SearchUpTo` over all records |
| GFilter.SearchChannels | bot/plugins/filter/gfilter.py:70-123 | no word: the error reply, nothing touched; a query shorter than 3: silence, no store or Telegram access; otherwise the replies, the cache, the calls and the store after deletions are those of the loop over the records |
| GFilter.NewsSearchScenario | bot/plugins/filter/gfilter.py:70-104 | with "News A" and "News B" stored, `/channel news` lists both in store order with their links; a second search within the lifetime lists the same and makes no link call |
| Chnl.AlertLink | bot/plugins/filter/chnl.py:21-31 | the alert's link text: the exported link when there is one, a placeholder for a falsy result or an `RPCError` (`ExportFailureStillRegisters`), and no alert at all (the outer handler's error report) exactly for any other exception |
| Chnl.NewChatStep | bot/plugins/filter/chnl.py:13-47 | registration happens iff the new member is the bot, the id starts with "-100", the chat is not stored, and the member count, the link step and the alert all succeed; an ignored update is exactly one failing the first three tests |
| Chnl.RegisteredIdIsNegative | bot/plugins/filter/chnl.py:19 | a registered id is at most -100 |
| Chnl.ExportFailureStillRegisters | bot/plugins/filter/chnl.py:21-31 | an `RPCError` or a falsy export still registers, announcing the placeholder text |
| Chnl.RegistrationIsIdempotent | bot/plugins/filter/chnl.py:19-44 | after a registration, the same update again is ignored |
| Chnl.RegistrationKeepsIdsUnique | bot/plugins/filter/chnl.py:19-44 | a registration keeps stored chat ids pairwise distinct |
| Chnl.HandleNewChat | bot/plugins/filter/chnl.py:13-47 | the outcome is `NewChatStep`; the store gains exactly the new record on registration and is unchanged otherwise |
| Chnl.ParseLeave | bot/plugins/filter/chnl.py:51-59 | the parsed `/leave`: malformed (the `IndexError`) exactly when the text has no word; `LeaveChatIsSecondWord` and `LeaveReasonIsRest` state the rest |
| Chnl.ChatArgument | bot/plugins/filter/chnl.py:60-63 | an id exactly when `int()` accepts the argument, and then the id `int()` gives; `ChatArgumentRoundTrip` states the rest |
| Chnl.LeaveChatIsSecondWord | bot/plugins/filter/chnl.py:51-59 | usage iff one word; otherwise the chat is the second word in both branches, and with exactly two words the reason is the default |
| Chnl.LeaveReasonIsRest | bot/plugins/filter/chnl.py:54-56 | with more than two words the chat is the second word and the reason is the rest of the text after it and its whitespace, as typed |
| Chnl.ChatArgumentRoundTrip | bot/plugins/filter/chnl.py:60-63 | an id written by `str` parses back to that id; an argument `int()` rejects stays the original text |
| Chnl.LeaveAChat | bot/plugins/filter/chnl.py:49-78 | usage and malformed commands send and change nothing; the record is deleted only for an integer chat after both the farewell and the leave succeed; any other path leaves the store unchanged, and a parsed command that does not leave a chat by id ends in the error reply |
| Chnl.ShownMembers | bot/plugins/filter/chnl.py:89 | a missing or zero member count shows as "Unknown" |
| Chnl.ListStep | bot/plugins/filter/chnl.py:86-95 | one iteration: an answered lookup appends exactly one entry and any other lookup none; the id is marked for deletion exactly on `ChannelPrivate` |
| Chnl.ListUpTo | bot/plugins/filter/chnl.py:83-95 | the loop's state after the first records: at most one entry and one deletion per record |
| Chnl.LineCountIsAnswered | bot/plugins/filter/chnl.py:86-91 | there is one entry per record whose lookup answered |
| Chnl.LinesNumberedConsecutively | bot/plugins/filter/chnl.py:85-95 | entries are numbered 1, 2, … without gaps, as many as there are records whose lookup answered, each showing the title and id of such a record |
| Chnl.LinesFollowStoreOrder | bot/plugins/filter/chnl.py:85-91 | every record whose lookup answered has its own entry, placed after those of the answered records before it, so entries follow store order |
| Chnl.ListHealedExactly | bot/plugins/filter/chnl.py:92-95 | a record is deleted exactly when its lookup raised `ChannelPrivate`; other errors keep it |
| Chnl.NothingListedIffNoAnswer | bot/plugins/filter/chnl.py:97-100 | the count stays at 1 exactly when no lookup answered |
| Chnl.GroupsList | bot/plugins/filter/chnl.py:80-100 | "No groups found" iff nothing was listed; the listed entries and the store after deletions are those of the loop over the records |
| Cmds.ParseAdminCommand | bot/plugins/filter/cmds.py:14-22 | usage iff fewer than two words; invalid iff the model's `int()` (ASCII digits) rejects the second word; otherwise the parsed id, refused iff it is a root id |
| Cmds.UserIdRoundTrip | bot/plugins/filter/cmds.py:19 | a second word written by `str(n)` is read back as `n` |
| Cmds.AddAdminCommand | bot/plugins/filter/cmds.py:12-30 | usage, invalid id and root id leave the store unchanged; otherwise the reply says added iff the id was not stored, and the id is an admin afterwards |
| Cmds.RemoveAdminCommand | bot/plugins/filter/cmds.py:32-50 | usage, invalid id and root id leave the store unchanged; otherwise the reply says removed iff a stored grant existed, and in a store with no id granted twice the id is no longer an admin; root ids stay admins |
| Cmds.WithoutRoots | bot/plugins/filter/cmds.py:66 | exactly the listed admins that are not root ids, still without duplicates |
| Cmds.ListAdmins | bot/plugins/filter/cmds.py:52-74 | "no admins found" iff there are neither root nor stored admins; otherwise the root ids in configuration order numbered from 1, then exactly the non-root admins, each once, numbered from 1, with their mention or "unknown user" |
| PyroFilters.Admits | bot/utilities/pyrofilters/admins.py:23 | an admin always passes; a non-admin passes iff global mode is on and `allow_global` is set |
| PyroFilters.AdminFilter | bot/utilities/pyrofilters/admins.py:15-23 | passes iff the sender is an admin (root or stored) or global mode meets `allow_global`; nothing is modified |
| PyroFilters.DefaultAdminFilter | bot/utilities/pyrofilters/admins.py:16-23 | with `allow_global` left at its default, exactly the admins pass |
| WebLink.GetWebLink | bot/utilities/helpers/weblink.py:3-10 | an answer iff the website mode is on; a link without `start=` comes back unchanged |
| WebLink.RewriteTakesLastPayload | bot/utilities/helpers/weblink.py:5-8 | with `start=` present, the answer is the website address plus `?link=` plus a part that the link ends with right after a `start=`, and that part contains no `start=` |
| PyStr.SplitMaxAgrees | bot/plugins/filter/chnl.py:51-59 | `split(None, 2)` agrees with `split()` on its first two pieces and has a third exactly when `split()` has more than two |
| PyStr.ParseInt | bot/plugins/filter/cmds.py:19 | `int()` in base 10: blank text is refused, and a negative value needs a leading minus sign; `ParseIntRoundTrip` and `SupergroupPrefixIsNegative` state the rest |
| PyStr.ParseIntRoundTrip | bot/plugins/filter/cmds.py:19 | `int(str(n)) == n` for every integer, with no limit on the number of digits |
| PyStr.SupergroupPrefixIsNegative | bot/plugins/filter/chnl.py:19 | an integer whose decimal form starts with "-100" is at most -100 |
| PyStr.AfterLastHasNoSep | bot/utilities/helpers/weblink.py:6 | `split(sep)[-1]` contains no `sep` |
| PyStr.AfterLastFollowsSep | bot/utilities/helpers/weblink.py:6 | when `sep` occurs, the text is a prefix, then `sep`, then `split(sep)[-1]` |
| PyStr.Find | bot/plugins/filter/gfilter.py:85 | substring search gives the first occurrence, or -1 when there is none |
| PyStr.SplitOnceAfterWord | bot/plugins/filter/gfilter.py:73 | `split(None, 1)` of a word, whitespace and an argument is the word and the argument |

## Left out

- The Mongo client construction and its DNS-resolver fallback
  (bot/database/mongo_db.py:28-34). These are driver I/O.
- `get_db_size` and its `dbstats` call. This is driver I/O.
- bot/plugins/utils/stats.py is not part of this model. It only formats two
  counts.
- Failures of MongoDB calls are not modelled. Every store operation
  succeeds, and `acknowledged` is always true.
- The `alru_cache` around `add_user` is not modelled. The upsert is a set
  insert, and a cached repeat would change nothing.
- Aggregation pipelines are abstracted to map and set lookups.
- The `$set` upsert of `add_file` is modelled as a whole-document
  replacement. File documents hold no other fields.
- Telegram itself is not modelled. Each call is an oracle value: a value or
  an error kind.
  - The log-channel message of the admin-required path is a single recorded
    call.
  - Printed log lines are dropped.
- Reply texts, small-caps strings, inline keyboards, HTML formatting and
  mentions are abstracted to reply datatypes.
- The `MessageTooLong` fallback that writes `chats.txt`
  (bot/plugins/filter/chnl.py:101-104) is not modelled, since message
  length limits are not modelled.
- Errors raised while sending the search replies are not modelled. This
  covers the outer handler (bot/plugins/filter/gfilter.py:106-123): the
  model returns the result list, one reply per entry.
- async/await and concurrently running handlers are not modelled. Each
  handler is one sequential method, so the check-then-insert race in
  `handle_new_chat` and `add_admin` is not represented.
- `time.time()` is a float. The model uses an integer clock reading passed
  in per call.
- Decorator dispatch is not modelled: `filters.command`, `filter_text`,
  `filters.incoming` and `on_message`. Neither is loading of configuration
  and options.
- Pyrogram builds `message.command` with a quote-aware split. The model
  uses the whitespace split, so a quoted argument with spaces is not
  grouped.
- GFilter.SearchChannels iterates over a snapshot of the records taken when
  the cursor opens, and deletions go to the live store. Whether a Motor
  cursor returns a record deleted after the cursor opened is not modelled.
  Chnl.GroupsList does the same.
- GFilter.SearchChannels requires one probe per stored record. This is the
  shape of the oracle, not a demand of the source.
- Chnl.GroupsList likewise requires one lookup per stored record.
- Database.MongoDB.GetAllAdmins does not state the order of the list,
  because the source's order is that of a Python set. Database.Dedup keeps
  first occurrences. Cmds.ListAdmins states only the contents and the
  numbering of its database section.
- Database.FindChat and Database.MongoDB.GetChat take the first matching
  record. Mongo's `find_one` without a sort returns an unspecified one, and
  with unique ids the two coincide.
- Database.MongoDB.RemoveAdmin deletes the first record with the id. Mongo's
  `delete_one` without a sort deletes an unspecified matching one. Records
  with the same id differ only in `addedOn`, and with no id granted twice
  there is only one.
- Database.FirstAdminIndex names the record the model deletes, not one Mongo
  is bound to pick, for the same reason.
- Database.MongoDB.constructor stands for a fresh, empty database. The
  source attaches to an existing database whose contents persist across
  restarts. Database.GrantTwice and GFilter.NewsSearchScenario start from
  the fresh store.
- PyStr.ParseInt accepts ASCII digits only. Python's `int()` accepts every
  Unicode decimal digit (category Nd, such as `١٢٣` or `۱۲۳`), which the
  model rejects. It also does not model CPython's limit of 4300 digits on
  decimal conversions, beyond which `int()` raises. Around the digits it
  strips every character `str.isspace` accepts. CPython's `int()` strips
  only ASCII space, tab, newline, `\v`, `\f` and `\r`, plus the non-ASCII
  spaces, so the model accepts `"\x1c1"`, which `int()` rejects. The
  handlers pass it single words, which hold no whitespace.
- PyStr.ParseIntRoundTrip holds for integers of any length in the model. In
  CPython `str(n)` and `int(s)` raise beyond 4300 digits.
- Cmds.ParseAdminCommand therefore classifies an id written in non-ASCII
  decimal digits as `InvalidUserId`, where the source parses it and calls
  the store (bot/plugins/filter/cmds.py:19-24). Ids of more than 4300
  digits are accepted by the model and rejected by the source.
- Chnl.LeaveAChat therefore treats a chat id written in non-ASCII decimal
  digits as a chat name: it ends in the error reply with the store
  unchanged, where the source deletes the record after leaving
  (bot/plugins/filter/chnl.py:60-63, 75).
- PyStr.Lower folds ASCII letters only. Python's full Unicode
  `lower()` is not modelled.
- A channel whose `title` is `None` is not modelled. Its `lower()` would
  raise, and the model's lookup always carries a title.
- Chnl.NewChatStep takes the update's new member as an optional user id.
  The member's status (joined or left) is not looked at, as in the source.
