# Hometown Heating: chat responder and record store, modelled in Dafny

This project models the two parts of the Hometown Heating web site that hold logic:

- **The chat widget** (`client/src/components/ChatBot.tsx`).
  - `getBotResponse` lowercases and trims a message.
  - It then tries a fixed, ordered list of topic rules and returns the canned answer of the first rule that matches. If no rule matches, it returns the default answer.
  - A rule matches through `HAS`: one of its terms is a substring of the message, or a word-boundary pattern (`/\bac\b/`, `/\bservice(s)?\b/`) finds a whole word.
  - The widget keeps a list of messages, an input box, an open/closed flag and an unread-badge counter.
- **The in-memory record store** (`server/storage.ts`, class `MemStorage`).
  - It holds three JavaScript Maps keyed by id: users, contact inquiries and Comfort Club applications.
  - It creates records, lists them newest first, updates an application's status and looks users up.
  - The thin `PATCH /api/comfort-club/:id/status` handler of `server/routes.ts` is modelled on top of it.

Modules:

| file | module | what it holds |
|---|---|---|
| `wrappers.dfy` | `Wrappers` | `Option`, for the `undefined`/`null` results |
| `text.dfy` | `Text` | JavaScript `toLowerCase`, `trim`, `includes` and a `\b`-delimited regex test on strings |
| `chatbot.dfy` | `ChatBot` | the answer table, the rule table, `HAS` and `getBotResponse` |
| `chat_widget.dfy` | `ChatWidget` | class `ChatSession`: messages, input, open flag, unread counter |
| `newest_first.dfy` | `NewestFirst` | the stable sort by `createdAt`, descending, used by both list methods |
| `storage.dfy` | `Storage` | class `MemStorage` and its record types |
| `routes.dfy` | `Routes` | the status PATCH handler |

Modelling choices:

- **The `getBotResponse` if-chain is a table.**
  - `ChatBot.Rules` lists the 15 conditionals in source order, each with its terms and its answer key.
  - `FirstMatch` walks the table, and `Classify` picks the topic.
  - A plain string term is `Phrase`. A regex term is `WordPattern(stem, suffix)`, read as `/\bstem(suffix)?\b/`, where `\b` is the ASCII word-character boundary.
- **The answer table is total.** Its keys are the `Topic` datatype and `Response` gives each key's exact text.
- **`trim`** removes the full ECMAScript set of white-space and line-terminator characters.
- **`toLowerCase`** maps only `A`–`Z`.
- **A JavaScript Map is a `map` plus a `seq` of its keys in insertion order.**
  - The key order is what `values()` yields.
  - So it decides which user `find` returns first, and how records with equal timestamps are ordered after the stable `Array.prototype.sort`.
- **`map.set` on an id that is already present replaces the value and keeps the key's position**, as a JavaScript Map does. No create method requires a fresh id: a fresh id adds exactly one entry, and a reused one overwrites.
- **Each React state update and the effects it triggers form one method of `ChatSession`.**
  - The unread effect runs on `[messages, isOpen]`. It runs on mount, after a send, and after each open/close.
  - One consequence, stated in the contracts of `Toggle` and `Close`: closing the window while the last message is the bot's adds one to the badge.
- **`ChatSession.reply`** is the responder the component calls. The constructor fixes it to `GetBotResponse`, and `SendMessage` is stated in terms of it.
- **Record shapes** follow the fields the store writes. The `User` type comes from `@shared/schema`, which is not part of this model. It is taken to be `{id, username, password}`.
- **Two behaviours of the store worth noting:**
  - Storage's create methods return the whole stored record. Only the POST routes reduce it to an id.
  - An unknown id in `updateComfortClubApplicationStatus` yields `undefined` (`None`), not an error. The route turns it into 404.

## Model

| member | source | states |
|---|---|---|
| Text.LowerChar | client/src/components/ChatBot.tsx:60 | the result is never a capital; non-capitals are kept; `A`–`Z` map to the letter at the same offset in `a`–`z`; whitespace-ness and word-character-ness are kept |
| Text.Lower | client/src/components/ChatBot.tsx:60 | definition of `toLowerCase`: each character lowercased on its own, length kept; its laws are LowerIdempotent, LowerConcat and LowerTrimCommute |
| Text.TrimStart | client/src/components/ChatBot.tsx:60 | the result is a suffix of the input; everything dropped is whitespace; the result does not start with whitespace |
| Text.TrimEnd | client/src/components/ChatBot.tsx:60 | the result is a prefix of the input; everything dropped is whitespace; the result does not end with whitespace |
| Text.Trim | client/src/components/ChatBot.tsx:60 | the result neither starts nor ends with whitespace |
| Text.TrimOffset | client/src/components/ChatBot.tsx:60 | the trim is the slice of the input at the returned offset, and everything around it is whitespace |
| Text.IncludesFrom | client/src/components/ChatBot.tsx:57 | true exactly when the term occurs at some position at or after `from` |
| Text.Includes | client/src/components/ChatBot.tsx:57 | `m.includes(t)`: true exactly when t occurs at some position of m |
| Text.TestWordFrom | client/src/components/ChatBot.tsx:57 | true exactly when the stem, optionally followed by the suffix, occurs between two word boundaries at or after `from` |
| Text.TestWord | client/src/components/ChatBot.tsx:65 | `/\bstem(suffix)?\b/.test(m)`: true exactly when such a whole-word occurrence exists |
| Text.LowerIdempotent | client/src/components/ChatBot.tsx:60 | lowercasing twice is lowercasing once |
| Text.LowerConcat | client/src/components/ChatBot.tsx:60 | lowercasing distributes over concatenation |
| Text.LowerOfBlank | client/src/components/ChatBot.tsx:60 | lowercasing leaves a blank string unchanged |
| Text.TrimOfUnpadded | client/src/components/ChatBot.tsx:60 | a string with no whitespace at either end is its own trim |
| Text.TrimIdempotent | client/src/components/ChatBot.tsx:60 | trimming twice is trimming once |
| Text.TrimEmptyIffBlank | client/src/components/ChatBot.tsx:138-139 | the trim is empty if and only if the string is all whitespace (the send guard) |
| Text.TrimUnique | client/src/components/ChatBot.tsx:60 | any whitespace-padded slice whose ends are not whitespace is the trim |
| Text.PaddedInContext | client/src/components/ChatBot.tsx:60 | blank text on both sides of a string keeps a whitespace-padded slice padded |
| Text.TrimPadding | client/src/components/ChatBot.tsx:60 | blank text added on either side does not change the trim |
| Text.TrimStartLower | client/src/components/ChatBot.tsx:60 | trimming the start commutes with lowercasing |
| Text.TrimEndLower | client/src/components/ChatBot.tsx:60 | trimming the end commutes with lowercasing |
| Text.LowerTrimCommute | client/src/components/ChatBot.tsx:60 | `lower(trim(s)) == trim(lower(s))` |
| ChatBot.Response | client/src/components/ChatBot.tsx:14-47 | definition of `botResponses`: one fixed answer text per key, the default included |
| ChatBot.Matches | client/src/components/ChatBot.tsx:57 | definition of one term's test: a string term by `includes`, a regex term by its whole-word test |
| ChatBot.Rules | client/src/components/ChatBot.tsx:62-89 | definition of the if-chain: the 15 conditionals in source order, each with its terms and its answer key; its laws are RulesNeverDefault and RulesTermsNonEmpty |
| ChatBot.Classify | client/src/components/ChatBot.tsx:62-91 | definition of the chain's choice: the key of the first matching rule, or the default key; its laws are ClassifyByRule, FirstMatchWins and DefaultTopicIffNoMatch |
| ChatBot.Normalize | client/src/components/ChatBot.tsx:60 | the message lowercased, then trimmed: the result neither starts nor ends with whitespace |
| ChatBot.Has | client/src/components/ChatBot.tsx:56-57 | `HAS` is true if and only if some term of the list matches (substring or whole-word pattern) |
| ChatBot.RulesNeverDefault | client/src/components/ChatBot.tsx:62-89 | no rule answers with the default key |
| ChatBot.RulesTermsNonEmpty | client/src/components/ChatBot.tsx:62-89 | every term of every rule is non-empty |
| ChatBot.FirstMatch | client/src/components/ChatBot.tsx:62-91 | the chosen rule matches and no earlier rule does; the index is the table length exactly when nothing matches |
| ChatBot.GetBotResponse | client/src/components/ChatBot.tsx:59-92 | total: every message gets one of the answers of the table |
| ChatBot.NormalizeIdempotent | client/src/components/ChatBot.tsx:60 | normalising a normalised message changes nothing |
| ChatBot.NormalizedInputSameResponse | client/src/components/ChatBot.tsx:59-60 | `getBotResponse(lower(trim(s))) == getBotResponse(s)`, and likewise for `trim(lower(s))` |
| ChatBot.CaseInsensitive | client/src/components/ChatBot.tsx:60 | the answer to a lowercased message is the answer to the message |
| ChatBot.SurroundingWhitespaceIgnored | client/src/components/ChatBot.tsx:60 | whitespace before or after the message does not change its answer |
| ChatBot.FirstMatchIs | client/src/components/ChatBot.tsx:62-91 | a matching rule with no earlier matching rule is the one chosen |
| ChatBot.ClassifyByRule | client/src/components/ChatBot.tsx:62-91 | the topic is that of the first rule that matches |
| ChatBot.FirstMatchWins | client/src/components/ChatBot.tsx:62-91 | the answer is the answer of the first matching rule, whatever later rules also match |
| ChatBot.DefaultTopicIffNoMatch | client/src/components/ChatBot.tsx:91 | the default topic is chosen if and only if no rule matches |
| ChatBot.NoMatchIsDefault | client/src/components/ChatBot.tsx:91 | a message that no rule matches gets the default answer |
| ChatBot.HeatPumpTopic | client/src/components/ChatBot.tsx:63 | a normalised message containing "heat pump", "heatpump", "heat-pump", "geothermal" or "ductless" has the heat-pump topic |
| ChatBot.HeatPumpWins | client/src/components/ChatBot.tsx:63 | such a message gets the heat-pump answer even when it also mentions service, cost or an emergency |
| ChatBot.BlankInputIsDefault | client/src/components/ChatBot.tsx:91 | the empty and whitespace-only messages get the default answer |
| ChatBot.HasOfMatch | client/src/components/ChatBot.tsx:57 | one matching term makes `HAS` true |
| ChatBot.LongPhrasesMiss | client/src/components/ChatBot.tsx:57 | substring terms longer than the message never match |
| ChatBot.AcWordMatchesRule | client/src/components/ChatBot.tsx:65 | a message with "ac" as a whole word matches the air-conditioning rule |
| ChatBot.AcWordTopic | client/src/components/ChatBot.tsx:63-65 | such a message has the air-conditioning topic unless a heat-pump or furnace term matches first |
| ChatBot.AcMissesEquipmentTerms | client/src/components/ChatBot.tsx:63-64 | no heat-pump or furnace term matches "ac" |
| ChatBot.AcAloneTopic | client/src/components/ChatBot.tsx:65 | the normalised message "ac" has the air-conditioning topic |
| ChatBot.AcAloneIsAirConditioning | client/src/components/ChatBot.tsx:59-65 | every message that normalises to "ac" (such as "AC" or " ac ") gets the air-conditioning answer |
| ChatBot.AcInsideBackIsNoWord | client/src/components/ChatBot.tsx:65 | the `/\bac\b/` term does not match "back" |
| ChatBot.AirConditioningRuleMissesBack | client/src/components/ChatBot.tsx:65 | no term of the air-conditioning rule matches "back" |
| ChatWidget.Greeting | client/src/components/ChatBot.tsx:111-118 | definition of the greeting text of the first bot message |
| ChatWidget.BadgeFires | client/src/components/ChatBot.tsx:134 | definition of the unread effect's condition: the window is closed and the last message is the bot's |
| ChatWidget.ExchangesAppend | client/src/components/ChatBot.tsx:155 | appending a user message and the bot's reply to it keeps the conversation a sequence of exchanges |
| ChatWidget.ChatSession.constructor | client/src/components/ChatBot.tsx:95-119 | the restored messages, or else the single greeting with id "1"; closed window and empty input; the badge effect has run once |
| ChatWidget.ChatSession.UnreadEffect | client/src/components/ChatBot.tsx:132-135 | the counter goes up by one exactly when the window is closed and the last message is a bot message; otherwise it is unchanged |
| ChatWidget.ChatSession.SetInput | client/src/components/ChatBot.tsx:220 | the input box holds the typed value |
| ChatWidget.ChatSession.SendMessage | client/src/components/ChatBot.tsx:137-157 | blank input: nothing changes. Otherwise exactly two messages are appended (user with the trimmed text, then bot with the reply to it), earlier messages are kept, the input is cleared, and the badge effect runs |
| ChatWidget.ChatSession.AppendExchange | client/src/components/ChatBot.tsx:155 | the user's message and the bot's reply go at the end, in that order, and nothing else changes |
| ChatWidget.ChatSession.Toggle | client/src/components/ChatBot.tsx:246-250 | the window flips; opening resets the counter to 0; closing runs the badge effect; messages and input are unchanged |
| ChatWidget.ChatSession.Close | client/src/components/ChatBot.tsx:184 | the window is closed; if it was open, the badge effect runs; otherwise nothing changes |
| NewestFirst.Insert | server/storage.ts:64-66 | inserting keeps a newest-first list newest first and adds exactly the one element |
| NewestFirst.ConsNewestFirst | server/storage.ts:64-66 | an element at least as new as the front can go in front |
| NewestFirst.InsertedTailNotNewer | server/storage.ts:64-66 | the head stays in front of a tail that only holds elements no newer than it |
| NewestFirst.SortNewestFirst | server/storage.ts:64-66 | the result is a permutation of the input with non-increasing `createdAt` |
| NewestFirst.InsertKeepsTies | server/storage.ts:64-66 | inserting keeps the relative order of records with equal timestamps |
| NewestFirst.SortIsStable | server/storage.ts:86-88 | records with equal timestamps keep their insertion order |
| NewestFirst.NewestComesFirst | server/storage.ts:64-66 | a record strictly newer than all others is listed first |
| Storage.OrNull | server/storage.ts:54-55 | a missing or empty optional string becomes null; any other value is kept as given |
| Storage.SetOrder | server/storage.ts:59 | definition of the key order after `map.set`: a new key is appended, an existing key stays where it is; its laws are SetKeepsKeyOrder and ValuesAfterAdd/Replace |
| Storage.SetKeepsKeyOrder | server/storage.ts:59 | after `set`, the order still lists every key exactly once |
| Storage.ValuesInOrder | server/storage.ts:39 | definition of `values()`: the map's values, one per listed key, in key order; its laws are ValuesInOrderAreValues and ValuesAfterAdd/Replace |
| Storage.ValuesAfterAdd | server/storage.ts:81 | setting a new key lists its value after all earlier values |
| Storage.ValuesAfterReplace | server/storage.ts:95 | setting an existing key replaces its value in place in the listing |
| Storage.ValuesInOrderAreValues | server/storage.ts:64 | the listing contains exactly the map's values |
| Storage.KeyOrderSize | server/storage.ts:64 | the listing has one entry per key of the map |
| Storage.FindByUsername | server/storage.ts:38-40 | finds nothing exactly when no user has the name; otherwise returns the first user with exactly that name |
| Storage.FindAfterAppend | server/storage.ts:38-40 | with one more user at the end, an earlier match still wins; otherwise the new user is found if it has the name |
| Storage.MemStorage.constructor | server/storage.ts:27-31 | three empty maps |
| Storage.MemStorage.GetUser | server/storage.ts:33-35 | the user stored under id, or None when there is none |
| Storage.MemStorage.GetUserByUsername | server/storage.ts:37-41 | a user with exactly that name whenever one exists, else None; nothing changes |
| Storage.MemStorage.CreateUser | server/storage.ts:43-48 | the returned user carries the given fields and id, and is stored under id; the other maps are untouched |
| Storage.MemStorage.CreateContactInquiry | server/storage.ts:50-61 | the returned record is the stored one, with falsy service/message as null, the given id and timestamp; only the inquiry map changes, at that one key |
| Storage.MemStorage.GetContactInquiries | server/storage.ts:63-67 | a permutation of the stored inquiries, `createdAt` non-increasing, ties in insertion order; nothing changes |
| Storage.MemStorage.CreateComfortClubApplication | server/storage.ts:69-83 | the returned record is the stored one, with status "pending" and falsy address/systemCount/systemTypes/message as null; only the application map changes, at that one key |
| Storage.MemStorage.GetComfortClubApplications | server/storage.ts:85-89 | a permutation of the stored applications, `createdAt` non-increasing, ties in insertion order; nothing changes |
| Storage.MemStorage.UpdateComfortClubApplicationStatus | server/storage.ts:91-99 | existing id: only that record's status changes and the new record is returned. Unknown id: None, and the store is unchanged |
| Storage.CreateUserThenLookUp | server/storage.ts:33-48 | after `createUser`, `getUser(id)` returns the created user and `getUserByUsername` finds a user with that name, the new one when none had it before |
| Storage.CreateInquiryThenList | server/storage.ts:50-67 | an inquiry newer than all stored ones is the first of the next listing, which is one longer |
| Routes.PatchComfortClubStatus | server/routes.ts:83-114 | an absent, non-string or empty status gives 400 and changes nothing; an unknown id gives 404 and changes nothing; otherwise the updated record, with only its status changed |

## Left out

- Persistence through `localStorage` (ChatBot.tsx:99-123) is not modelled. JSON parsing and the `timestamp` revival are replaced by the constructor's `persisted` argument: a restored list, or None when nothing usable was stored.
- `uuid()`, `crypto.randomUUID()`, `Math.random` and `new Date()` are parameters of the methods that use them: ids and integer millisecond timestamps.
- React scheduling is not modelled, nor StrictMode's double-run effects, rendering, scrolling or the Enter-key handler. Each state update with its effects is one atomic step.
- The send button's `disabled` state and the fact that the input box is rendered only while the window is open are not modelled. `SendMessage` may run with the window closed.
- Text.Lower: lowercases only `A`–`Z`. JavaScript's full Unicode case mapping is not modelled.
- Async/`Promise` wrapping of the storage methods is not modelled: each call is one sequential step.
- NewestFirst.SortNewestFirst: the comparator's `?.getTime() || 0` fallback is not modelled. Every stored record has a `createdAt`, so the fallback cannot apply to the store's own records.
- Express plumbing, zod validation, the POST and GET routes and the 500 path of `server/routes.ts` are not modelled. `@shared/schema` is not part of this model.
- E-mail notification (`server/email.ts`), `server.js`, the page components and the UI button variants hold no logic of the modelled core.
