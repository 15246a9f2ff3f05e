# Referral ledger of a Telegram referral bot, in Dafny

`bot.js` is a Telegram bot that credits users for inviting others and hands
out a claim code once a user has five referrals. Its bookkeeping lives in
two module-level JavaScript Maps:

- `referrals` maps a referrer to an array of the user ids it referred;
- `withdrawRequests` maps a user id to that user's latest six-digit claim code.

Four handlers read and write the two Maps:

- `/start <referrer>` records a referral;
- the "mypoints" and "withdraw" buttons read a user's points;
- "withdraw" also stores a code;
- `/lookupcodes` lists the stored codes to the admin.

This project models that ledger and proves what it does.

- `Decimal` models `toString()` on an integral Number, with its inverse. This is
  how the handler renders the user id for the self-referral test and how it
  renders the claim code.
- `Tokens` models `text.split(" ")`, with `join(" ")` and both round trips.
- `Ledger` models each handler as a function on values. It has a JavaScript-Map
  key type `Key = Str(string) | Num(int)`, the insertion-ordered code registry,
  a `Step` function for one handler run and a `Run` function over any sequence
  of runs. The properties are its lemmas and contracts.
- `Bot` holds the class `ReferralBot`. Its fields are the two Maps (plus the
  registry's iteration order), and each handler is a method. Every
  state-changing method states its new state as `Step` of the old one.

The model keeps the keys as the source uses them. `/start` stores a referral
list under the STRING `args[1]`. "mypoints" and "withdraw" read it with the
NUMBER `ctx.from.id`. In a JavaScript Map these are different keys. The model
proves what follows:

- `Ledger.NoWithdrawalEverApproved`: from the empty ledger, no sequence of
  handler runs gives anyone a point, approves a withdrawal or stores a code.
- `Bot.ReferralLinkScenario`: a referrer is told "Total referrals: 1" but is
  shown 0 points.

The withdraw branch that stores a code is still modelled and proved as
written. It is reachable only from a ledger that holds numeric keys.

`bot.js` has none of the following, and neither does the model:

- a cap per referrer;
- a rule that a user can be credited to only one referrer (a user can sit on several referrers' lists);
- a confirm or cancel step for withdrawal;
- a point reset on withdrawal;
- persistence;
- a broadcast command.

## Model

| member | source | states |
|---|---|---|
| `Decimal.NatDigits` | bot.js:77 | the decimal digits of a natural number: at least one, all digits, no leading zero unless the number is 0 |
| `Decimal.DecimalString` | bot.js:77 | `userId.toString()`: non-empty, contains no space, all digits exactly when the number is non-negative |
| `Decimal.ValueOfNatDigits` | bot.js:116 | the digits of a number read back as that number (round trip of `toString`) |
| `Decimal.NatDigitsLength` | bot.js:116 | a number in [10^k, 10^(k+1)) renders to exactly k+1 digits |
| `Decimal.DecimalStringInjective` | bot.js:77 | two ids render to the same string exactly when they are equal, so the string comparison against the user's own id is an id comparison |
| `Tokens.SplitOnSpaces` | bot.js:72 | `text.split(" ")` yields at least one token and no token contains a space |
| `Tokens.JoinSplit` | bot.js:72 | joining the tokens with single spaces restores the text |
| `Tokens.SplitAfterWord` | bot.js:72 | a space-free word, a space, then the rest splits into the word followed by the rest's tokens |
| `Tokens.SplitWord` | bot.js:72 | a text without spaces is a single token, so `args.length` is 1 |
| `Tokens.SplitJoin` | bot.js:72 | splitting the join of space-free tokens gives those tokens back |
| `Ledger.ReferrerToken` | bot.js:72-75 | there is a referrer token exactly when the split has more than one token, and it contains no space |
| `Ledger.Attribute` | bot.js:70-89 | the /start handler's effect on `referrals`: it never removes a key and every list keeps its old entries as a prefix; `NoTokenNoChange`, `SelfReferralExactly`, `CreditedExactly`, `AlreadyListedExactly` and `CreditAppends` below give its exact outcome and new state |
| `Ledger.NoTokenNoChange` | bot.js:72-74 | with no second token, `referrals` is unchanged and nothing is credited |
| `Ledger.SelfReferralNoChange` | bot.js:75-77 | a token equal to the user's own id as a string changes no entry |
| `Ledger.SelfReferralExactly` | bot.js:77 | the handler reports a self-referral exactly when the token is the user's rendered id |
| `Ledger.CreditAppends` | bot.js:78-80 | an accepted referral appends the user at the end of the referrer's list, which starts empty for an unknown referrer; it adds only the referrer's key, and every other key keeps its list |
| `Ledger.CreditedExactly` | bot.js:74-80 | a /start credits the referrer exactly when there is a token, it differs from the user's rendered id, and the user is not yet on that token's list (empty for an unknown referrer) |
| `Ledger.AlreadyListedExactly` | bot.js:77-79 | a /start reports the user as already listed exactly when there is a token, it differs from the user's rendered id, and the user is already on that token's list; the reported referrer is that token |
| `Ledger.OnlyCreditChanges` | bot.js:74-89 | `referrals` changes exactly when the referrer is credited |
| `Ledger.CreditedTotal` | bot.js:80-84 | the total sent to the referrer equals the new length of its list, one more than before |
| `Ledger.AttributeIdempotent` | bot.js:74-80 | repeating the same /start message changes nothing more; after a credit the repeat reports the user as already listed, and any other outcome (no referrer, self-referral, already listed) is reported again unchanged |
| `Ledger.AttributeKeepsNoDuplicates` | bot.js:79-80 | if no list holds an id twice, none does after a /start |
| `Ledger.FollowReferralLink` | bot.js:72-77 | the text "/start " plus an inviter's id (the payload of the link built at bot.js:61) names that inviter, and is a self-referral exactly when the joiner is the inviter |
| `Ledger.PointsAt` | bot.js:96 | `referrals.get(key)?.length \|\| 0`: the stored list's length, and 0 exactly when the entry is missing or its list is empty |
| `Ledger.PointsOf` | bot.js:109 | a user's points are read under the numeric key `Num(userId)`: the length of the list stored there, 0 when there is none |
| `Ledger.StringKeyIgnored` | bot.js:78-109 | storing any list under the user's id rendered as a string, as /start does for referrers, leaves that user's points unchanged |
| `Ledger.NumericLookupMisses` | bot.js:109 | when every key is a string, looking up a numeric user id finds no list, so the user has 0 points |
| `Ledger.AttributeKeepsStringKeys` | bot.js:75-78 | /start writes only string keys |
| `Ledger.SetCode` | bot.js:117 | `withdrawRequests.set` overwrites a known user's code in place and appends a new user at the end of the iteration order, keeping the registry well formed |
| `Ledger.DistinctCard` | bot.js:136 | a sequence without repeats has as many distinct elements as its length |
| `Ledger.RegistrySize` | bot.js:136 | the Map's `size` equals the number of keys `forEach` visits |
| `Ledger.ClaimCode` | bot.js:116 | the code for a draw in [100000, 999999] is a six-digit string without a leading zero that denotes the draw |
| `Ledger.Withdraw` | bot.js:107-117 | refused (registry unchanged) exactly when points < 5; otherwise the user's code becomes the new six-digit code, overwriting any earlier one; other entries are unchanged, a known user keeps its place in the iteration order and a new user goes at its end |
| `Ledger.Lines` | bot.js:141-144 | one line per key in the Map's iteration order, each with that key's current code, and every entry appears |
| `Ledger.IsAdmin` | bot.js:131 | the admin test: nobody passes when ADMIN_ID is unset, and a caller passes only when ADMIN_ID is exactly that caller's rendered id |
| `Ledger.AdminUnique` | bot.js:131 | two callers that both pass the admin test are the same id, so at most one caller id passes whatever ADMIN_ID holds |
| `Ledger.Lookup` | bot.js:129-147 | a denial exactly for non-admin callers (including when ADMIN_ID is unset); the "none issued" reply exactly for the admin with an empty registry; otherwise one line per entry in the Map's iteration order, each with that user's code, each user once, every entry present |
| `Ledger.Step` | bot.js:70-147 | one handler run keeps the registry well formed; only /start changes `referrals` and only withdraw changes `withdrawRequests` |
| `Ledger.Run` | bot.js:8-9 | any sequence of handler runs keeps the registry well formed |
| `Ledger.StepKeepsReachable` | bot.js:70-117 | one handler run keeps the ledger invariant: string keys only, non-empty lists without repeats, empty registry |
| `Ledger.RunKeepsReachable` | bot.js:70-117 | every sequence of handler runs keeps that invariant |
| `Ledger.NoWithdrawalEverApproved` | bot.js:78-117 | after any sequence of handler runs from the empty Maps, every user has 0 points, the registry is empty, withdraw is refused and the admin lookup says none were issued |
| `Bot.ReferralBot.constructor` | bot.js:8-9 | both Maps start empty |
| `Bot.ReferralBot.Start` | bot.js:70-91 | the /start handler: its new state is `Step` of the old one; it changes no code; on a credit it appends the user to the referrer's list, reports that list's new length and leaves every other list alone; otherwise `referrals` is unchanged |
| `Bot.ReferralBot.MyPoints` | bot.js:94-104 | the points shown are `PointsOf` with the numeric id, and withdrawal is shown as unlocked exactly at 5 or more |
| `Bot.ReferralBot.Withdraw` | bot.js:107-126 | the new state is `Step` of the old one; `referrals` is never modified; refused exactly below 5 points, with nothing changed; otherwise it stores the six-digit code of the draw under the user |
| `Bot.ReferralBot.LookupCodes` | bot.js:129-147 | the reply, built by a loop over the entries in iteration order, is `Lookup` of the registry |
| `Bot.ReferralLinkScenario` | bot.js:59-109 | on a fresh bot, when another user opens an inviter's link, the inviter is notified of 1 referral but "mypoints" shows 0 |

## Left out

- Telegraf dispatch is not modelled: `bot.start`, `bot.action`, `bot.command`, the order of middleware and `bot.launch`. In particular the model does not decide whether `bot.start` (bot.js:12) runs instead of or beside `bot.command("start")` (bot.js:70). That depends on framework behaviour outside this file. The model treats the /start command handler as one handler.
- The channel-membership check (bot.js:12-33) is left out. It is a network call to Telegram, and it writes neither Map.
- The main menu (bot.js:36-56), the referral-link reply (bot.js:59-67) and the text of every reply (Markdown, HTML, emoji, bot.js:98-103 and 119-124) are presentation and are not modelled. The link's start payload, the user's id, is used by `Ledger.FollowReferralLink`.
- `ctx.reply` and `ctx.telegram.sendMessage` are not modelled as calls. The notification to the referrer is the `Credited(referrer, total)` result. The lookup message is its list of `CodeLine` values, without its text.
- `Math.random` is floating point and is not modelled. It is replaced by the integer `draw`, which must lie in [100000, 999999], the range `Math.floor(100000 + Math.random() * 900000)` produces.
- `dotenv` and `process.env` (bot.js:1-6 and 131) are not modelled. ADMIN_ID is a parameter, `None` when unset. BOT_TOKEN, CHANNEL_USERNAME and ADMIN_USERNAME are used only by the transport and the reply text.
- Decimal.DecimalString: ids are unbounded integers. The model does not capture JavaScript Number precision above 2^53 or exponent notation from 10^21 on. Telegram user ids have at most 52 significant bits, so they lie below 2^53 and far below 10^21.
- Bot.ReferralBot.Start: the array pushed in place (bot.js:80) is modelled as a new map value. It is reachable only through the Map, so no other reference can see the difference.
- Handlers are modelled as atomic steps. In the source they run to completion on Node's single thread, since none of them awaits.
- The referral cap, the system-wide single attribution, confirm and cancel of withdrawal, the point reset, persistence, broadcast and the user directory are not modelled. `bot.js` implements none of them.
