# anon-connect in Dafny

anon-connect pairs two people who reach a bot from different chat services
(SimpleX and Slack) and relays messages between them. This project models the
parts of it that decide who is paired with whom and where messages go:

- the in-memory **thread store** (`src/database.ts`). Thread records are kept
  in insertion order and are either waiting (`connecting`) or paired
  (`connected`). A chat record joins two of them. The store's operations are
  `getThread`, `getChat`, `newThread`, `tryConnect` and `getOtherThread`.
  `ThreadStore` is a class whose `threads` and `chats` fields are updated by
  its methods, as the module-level `Set`s are. Each method is proved against a
  function on a `Store` value (`FindThread`, `Connect`, …), and the store's
  invariant `Consistent` is proved preserved:
  - every chat joins two connected records with different ids;
  - no record is in two chats;
  - no record is connected without a chat.
- the **typed event emitter** (`src/helpers.ts`). Every adapter extends it
  (through `AbstractService`) and uses it to announce new threads, messages
  and closed threads to whatever listens. `TypedEmitter` is a class whose listener table (a `map` from
  event to list of listeners) is updated by `On` and `Off`. `AfterOn` and
  `AfterOff` specify those updates, and `Emit` returns the calls it makes in
  order.
- the **SimpleX adapter** (`src/simplex.ts`):
  - the `couldBeIncognito` profile check, with the regular expression run as
    an automaton and proved equal to the pattern's shape;
  - the `SimpleX|<contactId>` thread ids, built with `toFixed` and read back
    with `parseInt`;
  - `sendMessage` and `closeChat`;
  - the mapping from SimpleX chat events to the events the adapter emits and to messages the
    bot sends.
- the **Slack adapter** (`src/slack.ts`):
  - which incoming direct messages open a thread or continue one;
  - the `Slack|<dm id>|<ts>` thread ids;
  - how `sendMessage` takes a thread id apart.

`Common` holds `Option` and `Result`, plus `String.prototype.split` with a
one-character separator. Both adapters use `split` to take their thread ids
apart. `SplitJoin` and `JoinSplit` prove it inverse to `join`.

The model follows the code as written:
- threads carry no owner token and there is no anti-repeat filtering;
- `tryConnect` picks its partner deterministically: the last waiting record
  with another id, not a random one;
- `newThread` does not check for duplicate ids;
- nothing in the store ever sets a record to `closed`.

## Model

| member | source | states |
|---|---|---|
| Common.Split | src/slack.ts:63 | `split` always yields at least one piece, and no piece contains the separator |
| Common.SplitJoin | src/slack.ts:63 | splitting the join of separator-free pieces gives the pieces back |
| Common.JoinSplit | src/simplex.ts:194 | joining the pieces of a split gives the original string back |
| Common.SplitThree | src/slack.ts:11 | three separator-free pieces joined by the separator split back into exactly those three pieces |
| Database.FindThread | src/database.ts:19-27 | `getThread` finds the last record with the id, or reports that no record has it |
| Database.FindChat | src/database.ts:28-36 | `getChat` finds the last chat with the id on either side, or reports that no chat has it |
| Database.FindPartner | src/database.ts:56-61 | the partner scan finds the last waiting record with a different id, or reports that there is none |
| Database.OtherThread | src/database.ts:73-79 | `getOtherThread` returns `null` exactly when no chat involves the id |
| Database.AddThread | src/database.ts:38-40 | `newThread` appends a waiting record with the id, leaves every existing record as it was and leaves the chats alone |
| Database.Connect | src/database.ts:46-71 | `tryConnect` only moves statuses forward and only appends chats; every failure leaves the store unchanged; a pairing returns a partner with another id and adds exactly one chat |
| Database.ConnectRejects | src/database.ts:46-64 | `tryConnect` throws "not found" exactly when no record has the id; it throws "not connecting" exactly when the id's last record is not waiting; it returns `null` exactly when that record waits and no other-id record waits |
| Database.ConnectPairs | src/database.ts:55-70 | a pairing flips the id's last record and the last candidate to connected, appends one chat joining them, and returns the candidate's id |
| Database.AddThreadKeepsConsistent | src/database.ts:38-40 | `newThread` preserves the store invariant |
| Database.Pair | src/database.ts:66-68 | the update of a successful `tryConnect` sets the partner's and the requester's records to connected, keeps their ids, leaves every other record alone and appends exactly the chat joining the two |
| Database.PairKeepsConsistent | src/database.ts:66-68 | connecting two waiting records with different ids and recording their chat preserves the store invariant |
| Database.ConnectKeepsConsistent | src/database.ts:46-71 | `tryConnect` preserves the store invariant |
| Database.ConnectRoutesBothWays | src/database.ts:66-78 | right after a pairing, `getOtherThread` leads from the requester to the partner and from the partner back to the requester |
| Database.ThreadStore.constructor | src/database.ts:9-15 | the store starts with no threads and no chats, which is consistent |
| Database.ThreadStore.GetThread | src/database.ts:19-27 | the `forEach` scan returns exactly `FindThread` of the records |
| Database.ThreadStore.GetChat | src/database.ts:28-36 | the `forEach` scan returns exactly `FindChat` of the chats |
| Database.ThreadStore.NewThread | src/database.ts:38-40 | appends one waiting record, leaves the chats alone and keeps the invariant |
| Database.ThreadStore.ScanForPartner | src/database.ts:56-61 | the `forEach` scan returns exactly `FindPartner` of the records |
| Database.ThreadStore.TryConnect | src/database.ts:46-71 | the result and the new contents are exactly those of `Connect` on the old contents, and the invariant is kept |
| Database.ThreadStore.GetOtherThread | src/database.ts:73-79 | returns exactly `OtherThread` of the store |
| Emitter.Registered | src/helpers.ts:14 | looking up an event yields its list; while no event maps to an empty list, an event has listeners exactly when it has an entry |
| Emitter.Without | src/helpers.ts:16 | the filtered list no longer holds the listener and is no longer than before |
| Emitter.WithoutCounts | src/helpers.ts:16 | filtering keeps every other listener as often as it was registered and drops every occurrence of the removed one |
| Emitter.WithoutAppend | src/helpers.ts:16 | filtering works piece by piece, so the kept listeners stay in registration order |
| Emitter.AfterOn | src/helpers.ts:4-11 | `on` appends the listener to the event's list, creating the list when absent, and leaves the other events alone |
| Emitter.AfterOff | src/helpers.ts:13-19 | `off` filters the event's list, drops the entry when nothing is left, and leaves the other events alone |
| Emitter.OffUnregisteredIsNoop | src/helpers.ts:13-14 | `off` on an event without listeners changes nothing |
| Emitter.OffIdempotent | src/helpers.ts:13-19 | a second `off` of the same listener changes nothing |
| Emitter.OnThenOff | src/helpers.ts:4-19 | `off` undoes an `on` of a listener that was not yet registered |
| Emitter.TypedEmitter.constructor | src/helpers.ts:2 | the emitter starts with an empty listener table |
| Emitter.TypedEmitter.On | src/helpers.ts:4-11 | the new table is `AfterOn` of the old one, and no event maps to an empty list |
| Emitter.TypedEmitter.Off | src/helpers.ts:13-19 | the new table is `AfterOff` of the old one, and no event maps to an empty list |
| Emitter.TypedEmitter.Emit | src/helpers.ts:21-24 | every registered listener is called once per registration, in registration order, with the same arguments |
| Simplex.AutomatonAcceptsShape | src/simplex.ts:18 | the automaton accepts a name exactly when it has the form: uppercase, lowercase letters, uppercase, lowercase letters |
| Simplex.MatchesRandomName | src/simplex.ts:18-19 | the pattern test succeeds exactly on names of that form |
| Simplex.CouldBeIncognito | src/simplex.ts:14-22 | true exactly when the profile has no contact link, no full name, no image, and a display name of the generated shape |
| Simplex.Decimal | src/simplex.ts:80 | `toFixed()` of a contact id is a non-empty string of decimal digits |
| Simplex.DigitPrefix | src/simplex.ts:203 | `parseInt` reads the longest prefix of decimal digits |
| Simplex.ParseInt | src/simplex.ts:203 | `parseInt` gives `NaN` exactly when no digit follows the optional sign, and reads a string of digits as the number it denotes (as an unbounded integer) |
| Simplex.ParsePart | src/simplex.ts:194-203 | the id piece that destructuring leaves `undefined` gives `NaN`, and a piece of digits gives its value |
| Simplex.ParseDecimal | src/simplex.ts:203 | `parseInt` reads back the contact id that `toFixed` wrote |
| Simplex.ThreadId | src/simplex.ts:80 | a SimpleX thread id splits into exactly the service name and the contact id's digits, and the second piece reads back as the contact id |
| Simplex.ThreadIdInjective | src/simplex.ts:32 | different contacts get different thread ids |
| Simplex.SendMessage | src/simplex.ts:193-209 | `sendMessage` throws exactly when the thread id names another service, naming that service; otherwise it sends the given text |
| Simplex.CloseChat | src/simplex.ts:211-234 | `closeChat` only logs when the thread id names another service, and otherwise deletes the chat of the parsed contact |
| Simplex.ThreadIdRoundTrip | src/simplex.ts:194-203 | `sendMessage` and `closeChat` on the adapter's own thread id reach the contact it was built from |
| Simplex.Owner | src/simplex.ts:84-87 | a thread's owner string starts with the service name and the separator |
| Simplex.ItemActions | src/simplex.ts:94-140 | a chat-item entry leads to at most one action. Entries from a non-direct chat or without received content lead to none. A received message from a thread contact is relayed to that contact's thread, with absent text read as `''`. One from a main-chat contact gets a new-chat link. One whose contact lookup throws is dropped |
| Simplex.ItemsActions | src/simplex.ts:94-141 | the loop over the entries leads to at most one action per entry |
| Simplex.ItemsActionsAppend | src/simplex.ts:94-140 | entries are handled independently and in order |
| Simplex.HandleChatEvent | src/simplex.ts:34-150 | events of other types do nothing; a connection leads to exactly one action, which is an emitted event exactly when the contact used a custom profile; a connection without a custom profile gets the welcome messages; chat items lead to at most one action each |
| Simplex.ContactConnectedOpensThread | src/simplex.ts:79-89 | a connection through a custom profile opens the contact's thread, owned by the display name or, when that is empty, the full name, and the thread is one `sendMessage` reaches |
| Simplex.ContactDeletedClosesThread | src/simplex.ts:143-148 | a contact deleting the chat closes the contact's thread, and `closeChat` on that thread deletes that contact's chat |
| Simplex.ItemsReachTheirContacts | src/simplex.ts:129-136 | every event emitted for chat items relays one entry's text to the thread of the contact that sent it, and `sendMessage` and `closeChat` on that thread reach that same contact |
| Slack.ThreadIdSplits | src/slack.ts:36 | a Slack thread id built from a channel and a timestamp without separators splits into exactly the service name, the channel and the timestamp |
| Slack.Classify | src/slack.ts:18-52 | messages that are not direct or have a disallowed subtype are ignored; a top-level message opens the thread keyed by its own timestamp, owned by its sender exactly when it has one; a reply goes to the thread keyed by its parent's timestamp, and missing text reads as empty |
| Slack.SendMessage | src/slack.ts:62-74 | `sendMessage` throws exactly when the thread id names another service; otherwise it posts the text to the channel and thread timestamp in the second and third pieces |
| Slack.ThreadIdRoundTrip | src/slack.ts:62-74 | `sendMessage` on a thread id built from a channel and a timestamp posts to that channel and thread |
| Slack.ClassifiedThreadsAreReachable | src/slack.ts:34-51 | every thread the callback opens or writes to is one `sendMessage` posts back into, in the same channel and thread |
| Slack.ReplyJoinsParentThread | src/slack.ts:42-43 | a reply in a direct message goes to the thread its top-level message opened |
| Slack.ThreadIdInjective | src/slack.ts:11 | different channel and timestamp pairs get different thread ids |

## Left out

- The `globalThis._db` debugging hook and all console logging are left out; they change no state.
- Chat records refer to their thread records by object reference. The model uses the record's position in the store instead. The store only grows, so positions stay valid.
- With duplicate ids, "no record is in two chats" holds per record, not per id. `newThread` does not deduplicate, so one id can be in two chats.
- `tryConnect` and the other store functions run to completion without interleaving in the source (single-threaded JavaScript). The model treats each call as one atomic step.
- Emitter: listeners are opaque identities. Calling them, and any reentrant `on`/`off` from inside a listener during `emit`, are not modelled. `Emit` returns the calls it would make.
- The SimpleX and Slack clients (`apiSendMessages`, `apiSendTextMessage`, `apiDeleteChat`, `chat.postMessage`, `apiCreateLink`) are foreign calls. They are modelled as the action or value the adapter hands to them. Failures that the SimpleX adapter catches and logs are not distinguished from successes.
- Simplex.HandleChatEvent: `apiContactInfo` is the parameter `contactInfo`. `None` stands for a call that throws, which the per-entry `catch` logs. The welcome messages and the new-chat link are modelled as send attempts. Whether `botUser` is set, and the link's contents, are not modelled.
- Simplex.ParseInt: does not skip leading whitespace as `parseInt` does; the adapter's own thread ids never contain any. Its results are unbounded integers, not JavaScript numbers, so digit strings above 2^53, which `parseInt` rounds to the nearest double, are read exactly. Contact ids are whole numbers the source already holds as doubles, so the round trip of the adapter's own ids is unaffected.
- Simplex.Decimal: contact ids are taken as non-negative whole numbers below the range where `toFixed` switches to exponent notation.
- Slack.Classify: a message with a `thread_ts` key whose value is `undefined` is treated as having no key.
- Slack.SendMessage: the source does not catch a failing `chat.postMessage`, so `sendMessage` then rejects. The model returns the post request and does not model that failure.
- Slack.ThreadIdRoundTrip: requires that Slack channel ids and timestamps contain no `|`, which Slack's formats guarantee.
- `start` in both adapters, `botRunning`, the SimpleX `msgQ` loop and Slack's `app.start` are left out. They are connection set-up and asynchronous I/O.
- `src/main.ts` is not part of this model. It only creates the SimpleX chat client and bot and the Slack app.
- `scripts/simplex.ts` is not part of this model.
- `src/abstract-service.ts` and `src/types.ts` declare types only.
