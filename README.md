# statusmod: argument parsing, dispatch and permission checks

A Dafny model of two pieces of the discord-gamestatus bot:

- the `statusmod` command handler (`src/commands/statusmod.js`), with which an
  administrator lists the status messages cached for a channel, shows the
  options of one of them, resets one option or sets one option;
- the permission predicates `isAdmin`, `isOwner` and `isBotOwner`
  (`src/checks.js`). `isAdmin` is the check the command is registered with.

Files and modules:

- `wrappers.dfy` (`Wrappers`): the `Option` datatype.
- `text.dfy` (`Text`): `split(' ')` and `join(' ')` as `Split` and `Join`,
  the text after the k-th space (`AfterSeparators`), and the decimal rendering
  a template literal gives an index (`DecimalString`). Proved: both split/join
  round trips, and that joining the pieces from k on gives the text after the
  k-th space.
- `parse_int.dfy` (`EcmaParseInt`): the global `parseInt` of ECMA-262,
  section 19.2.5, with the radix undefined. It skips leading white space,
  takes one optional sign, lets a `0x`/`0X` prefix select radix 16 and
  otherwise reads the longest run of decimal digits. No digits gives NaN.
  Results are unbounded integers.
- `checks.dfy` (`Checks`): the three predicates over a message record whose
  member and guild are optional. The member's `ADMINISTRATOR` permission is an
  opaque boolean.
- `statusmod.dfy` (`StatusMod`):
  - `Dispatch(content, n)` is the decision of the handler as a pure function
    of the message text and the number of statuses in the channel. It yields
    one `Action`: `List`, `Show`, `Reset`, `Set`, `NoStatuses` or
    `InvalidIndex`.
  - `Render` gives the one reply for an action.
  - `Call` is the handler itself, in imperative form. It normalises the cache
    entry by rebinding a local, then `Handle` and its branch methods hand the
    option change to the addressed `Status` object and send the reply on the
    `Channel` object.
  - A `Status` records the `deleteOption`/`setOption` calls it receives. Its
    option store is not modelled.

The reply carries the status object where the source renders
`statusIdentity(status)` (name, address and message link), so the listing's
"one field per status, in cache order" is stated over the statuses themselves.

A negative zero from `parseInt("-0")` is the integer 0 here. In the source,
`-0` also passes the range check, addresses `statuses[0]` and is rendered
`#0`, so the behaviour is the same.

## Model

| member | source | states |
|---|---|---|
| `Text.Split` | src/commands/statusmod.js:27 | splitting on `' '` yields at least one piece and no piece contains a space |
| `Text.Join` | src/commands/statusmod.js:54 | the joined text is as long as the pieces plus one space between neighbours, opens with the first piece and puts a space right after it |
| `Text.JoinSplit` | src/commands/statusmod.js:27 | joining the pieces of a split with single spaces gives back the message text exactly |
| `Text.SplitJoin` | src/commands/statusmod.js:54 | splitting the join of space-free pieces gives back those pieces |
| `Text.AfterSeparators` | src/commands/statusmod.js:54 | the text after the k-th space is a suffix of the message |
| `Text.JoinDrop` | src/commands/statusmod.js:54 | joining the pieces from k on gives exactly the text after the k-th space |
| `Text.DecimalString` | src/commands/statusmod.js:41 | an index renders as decimal digits only, with no leading zero except for 0 itself |
| `EcmaParseInt.TrimStart` | src/commands/statusmod.js:36 | `parseInt` drops exactly the leading white-space run, leaving a suffix that does not open with white space |
| `EcmaParseInt.DigitPrefix` | src/commands/statusmod.js:36 | `parseInt` reads the longest prefix of digits of the radix and stops at the first non-digit |
| `EcmaParseInt.DecimalRoundTrip` | src/commands/statusmod.js:36 | the decimal rendering of k, followed by anything not starting with a digit (and not making "0x"), parses as k; so `1abc` parses as 1 |
| `EcmaParseInt.LeadingWhiteSpaceIgnored` | src/commands/statusmod.js:36 | leading white space does not change the result of `parseInt` |
| `EcmaParseInt.ParseInt` | src/commands/statusmod.js:36-37 | a string without a decimal digit parses as NaN, so it is never a usable index; a negative result needs a `-` in the string |
| `EcmaParseInt.ParseSigned` | src/commands/statusmod.js:36 | after the white space, a negative result needs a leading `-` |
| `EcmaParseInt.ParseMagnitude` | src/commands/statusmod.js:36 | the unsigned part is never negative; without `0x` it is NaN iff it does not open with a decimal digit |
| `EcmaParseInt.DigitsNumber` | src/commands/statusmod.js:36 | the digits read are never negative, and NaN iff there is no digit of the radix at the start |
| `EcmaParseInt.MinusSign` | src/commands/statusmod.js:36 | for every string s, `parseInt("-" + s)` is the negation of the unsigned reading of s (NaN stays NaN) |
| `EcmaParseInt.PlusSign` | src/commands/statusmod.js:36 | for every string s, `parseInt("+" + s)` is the unsigned reading of s |
| `EcmaParseInt.NegativeDecimal` | src/commands/statusmod.js:36 | corollary of `MinusSign`: `-k` followed by nothing or by text not starting with a digit (nor with `x`/`X` after a lone 0) reads as -k, so `-1abc` reads as -1 |
| `EcmaParseInt.PositiveDecimal` | src/commands/statusmod.js:36 | corollary of `PlusSign`: `+k` followed by nothing or by text not starting with a digit (nor with `x`/`X` after a lone 0) reads as k, so `+1abc` reads as 1 |
| `EcmaParseInt.HexPrefixed` | src/commands/statusmod.js:36 | after `0x` or `0X` the digits are read in radix 16 |
| `EcmaParseInt.HexExample` | src/commands/statusmod.js:36 | `0x1F` and `0X1F` parse as 31 |
| `EcmaParseInt.BareHexPrefix` | src/commands/statusmod.js:36 | `0x` or `0X` followed by no hexadecimal digit parses as NaN, so `0x` is never a usable index |
| `EcmaParseInt.WhiteSpaceBeforeSign` | src/commands/statusmod.js:36 | white space before a sign is skipped: any white space followed by `-k` reads as -k |
| `StatusMod.Normalise` | src/commands/statusmod.js:28-33 | an absent cache entry is the empty list, a single status a one-element list, a list is used unchanged |
| `StatusMod.Args` | src/commands/statusmod.js:27 | the arguments are the pieces after the command word: one fewer than the pieces, space-free, and with the command word they join back to the message |
| `StatusMod.ArgsOfCommandLine` | src/commands/statusmod.js:27 | a command line joined from a command word and space-free arguments yields exactly those arguments |
| `StatusMod.StripHash` | src/commands/statusmod.js:36 | exactly one leading `#` is removed, nothing else changes |
| `StatusMod.StatusIndex` | src/commands/statusmod.js:36-37 | an index is accepted iff `parseInt` of the argument without one leading `#` is a number with 0 <= index < n |
| `StatusMod.HashIsOptional` | src/commands/statusmod.js:36 | `#1` and `1` address the same status |
| `StatusMod.NegativeIndexRejected` | src/commands/statusmod.js:36-37 | `-k` and `#-k` with k >= 1 are never usable indices |
| `StatusMod.DecimalIndexAccepted` | src/commands/statusmod.js:36-37 | the decimal indices accepted are exactly 0 to n-1, with or without `#` |
| `StatusMod.Dispatch` | src/commands/statusmod.js:35-83 | every addressed index is below n; the outcome is a listing iff there are no arguments; it is one of the two error replies iff the first argument is not a usable index |
| `StatusMod.DispatchArgs` | src/commands/statusmod.js:35-83 | over the argument list: every addressed index is below n and is the one parsed from the first argument; a listing iff no arguments; an error reply iff the first argument is not a usable index |
| `StatusMod.Addressed` | src/commands/statusmod.js:38-61 | with a usable index i: show iff one argument, reset iff two, set iff three or more, always on status i, with option `args[1]` |
| `StatusMod.BranchByArgumentCount` | src/commands/statusmod.js:39-61 | with a usable index, one argument shows, two reset option `args[1]`, three or more set option `args[1]` to the rest joined by spaces |
| `StatusMod.SetValueIsRestOfLine` | src/commands/statusmod.js:53-55 | in the set branch the value is the message text after its third space, verbatim, and the option is the second argument |
| `StatusMod.ResetCommandRoundTrip` | src/commands/statusmod.js:46-52 | a command line built from an index and an option resets that option on that status |
| `StatusMod.SetCommandRoundTrip` | src/commands/statusmod.js:53-55 | a command line built from an index, an option and value words sets that option on that status to the words joined by spaces, empty words included |
| `StatusMod.Mutation` | src/commands/statusmod.js:46-55 | an option change exists iff the outcome is reset or set; it goes to the addressed index, names its option, and is a `setOption` with the value iff the outcome is set |
| `StatusMod.OnlyAddressedStatusChanges` | src/commands/statusmod.js:38-61 | an option change happens iff an index is usable and an option is named; it goes to the parsed index, with option `args[1]` |
| `StatusMod.Label` | src/commands/statusmod.js:41 | a label is `#` followed by the index in decimal, contains no space, and with the `#` removed is the decimal index |
| `StatusMod.InvalidIndexText` | src/commands/statusmod.js:66 | the reply text ends with `)` and names the decimal of n-1 between its opening words and that parenthesis |
| `StatusMod.InvalidIndexNamesRange` | src/commands/statusmod.js:36-37 | the number named in that reply is the greatest usable index and n is not usable |
| `StatusMod.Render` | src/commands/statusmod.js:40-82 | the reply kind matches the outcome one to one; show, reset and set replies carry the addressed status under `#i`, reset and set name the option, and the listing holds one field per status under the status count |
| `StatusMod.Listing` | src/commands/statusmod.js:71-77 | one field per status, in cache order, field k labelled `#k` |
| `StatusMod.ListReply` | src/commands/statusmod.js:70-82 | with no arguments the reply lists every status in cache order under `#k`, titled with the status count |
| `StatusMod.ListingLabelShowsStatus` | src/commands/statusmod.js:71-77 | the label of field k, sent back as the only argument, shows status k |
| `StatusMod.ReplyTitleAddressesStatus` | src/commands/statusmod.js:40-60 | show, reset and set replies carry the addressed status under the title `#i`, which addresses it again |
| `StatusMod.UnusableIndexReply` | src/commands/statusmod.js:62-68 | an unusable index yields "no status messages" in an empty channel and otherwise the reply naming 0 to n-1 |
| `StatusMod.Status.DeleteOption` | src/commands/statusmod.js:47 | the status receives `deleteOption` for the option, nothing else |
| `StatusMod.Status.SetOption` | src/commands/statusmod.js:55 | the status receives `setOption` for the option and value, nothing else |
| `StatusMod.Channel.Send` | src/commands/statusmod.js:40-78 | each of the sends (lines 40, 48, 56, 64, 66 and 78) adds exactly that one reply to the channel |
| `StatusMod.CallsTo` | src/commands/statusmod.js:46-55 | a status receives at most one option call from a command, and one exactly when it is the status the change addresses, which is the call it receives |
| `StatusMod.Call` | src/commands/statusmod.js:26-84 | exactly one reply is sent, the one `Render(Dispatch(...))` gives; only the status at the parsed index receives the option change, and the other statuses receive none |
| `StatusMod.Handle` | src/commands/statusmod.js:35-83 | given the arguments and the normalised statuses, sends the reply `Render(DispatchArgs(...))` gives and hands the option change to the addressed status only |
| `StatusMod.ListStatuses` | src/commands/statusmod.js:70-83 | sends the listing of the statuses as the one reply |
| `StatusMod.Modify` | src/commands/statusmod.js:38-61 | with a usable index, runs the show, reset or set branch chosen by the argument count |
| `StatusMod.ResetOption` | src/commands/statusmod.js:46-52 | `deleteOption` reaches the status at the index and no other, then the reset is confirmed |
| `StatusMod.SetOption` | src/commands/statusmod.js:53-60 | `setOption` with the rejoined value reaches the status at the index and no other, then the new value is confirmed |
| `Checks.IsAdmin` | src/checks.js:1-4 | false without a member; otherwise the member's administrator permission |
| `Checks.IsOwner` | src/checks.js:6-9 | false without a guild; otherwise true iff the guild's owner id is the author's id |
| `Checks.IsBotOwner` | src/checks.js:11-13 | true iff the client's bot-owner id is set and equals the author's id |
| `Checks.AdminDependsOnlyOnMember` | src/checks.js:1-4 | `isAdmin` depends on the member alone, not on guild, author or client |
| `Checks.OwnerIgnoresMemberAndClient` | src/checks.js:6-9 | `isOwner` depends on guild and author alone |
| `Checks.BotOwnerIgnoresGuild` | src/checks.js:11-13 | `isBotOwner` needs neither a guild nor a member |

## Left out

- Discord I/O: the embeds, their Markdown and JSON rendering, the `WARNING` line and the `Date.now()` timestamps. A reply is modelled as its kind, its title, the status it concerns and its plain text.
- `statusIdentity` (src/commands/statusmod.js:22-24): the formatted name, address and message link. `messageLink` is not part of this model, so a reply carries the status object instead of the string.
- `Status` internals: the option store, its persistence, the type conversion of values, and `getOptions`/`getOption`. So the option fields of the show reply and the value read back into the set reply are not modelled. `StatusMod.Status` only records which option calls it receives, so read-after-write is not claimed.
- The `client` argument of `setOption`/`deleteOption`: it is passed unchanged, and what it is used for is not part of this model.
- Async ordering, failures propagated from `send`/`setOption`/`deleteOption`, and the external poller that mutates the update cache concurrently.
- The help text and `FORMAT_PROPERTIES` (src/commands/statusmod.js:87-98). `constants.js` is not part of this model.
- The command dispatcher that applies the `isAdmin` check (src/commands/statusmod.js:90) before calling the handler is not part of this model. The check itself is `Checks.IsAdmin`.
- `hasPermission('ADMINISTRATOR')` is an opaque boolean field of the member.
- EcmaParseInt.ParseInt: does not model IEEE-754 rounding of results beyond 2^53, because indices are compared with a small count. A negative zero is the integer 0. Strings are sequences of Unicode scalar values rather than UTF-16 code units; this makes no difference to the space separator, the white-space set or the digits.
