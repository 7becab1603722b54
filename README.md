# A verified model of the farm-block-chain ledger

farm-block-chain is a browser app: a "blockchain" of produce records. Each
block holds farmer, crop, quantity, price and notes. It also carries its
position, a clock reading, the previous block's hash and its own hash, which
is the first twenty characters of `btoa(JSON.stringify(block))`. The
`useBlockchain` hook owns the block list. The page hands the hook's
`addBlock` to the produce form (src/pages/Index.tsx:17, 67-71). Three more
components take the block list as a `blockchain` prop, and two of them also
take an `onAddBlock` callback, but no file of the repository renders them:

- the smart-contract panel, which records contracts and verifies the chain;
- supply-chain tracking, which records events and derives blocks from them;
- the analytics page, which groups, sums and exports as CSV.

The model assumes that their `blockchain` is the hook's list and their
`onAddBlock` is the hook's `addBlock`. It models those four components and
the hook in Dafny and proves what they promise.

| module | file | models |
|---|---|---|
| `Blocks` | `blocks.dfy` | the nine-field `Block` record |
| `Text` | `text.dfy` | `split`, `join` and `trim` of JavaScript strings, and decimal rendering |
| `JsParse` | `jsparse.dfy` | `parseInt(s)` (ECMA-262, section 19.2.5, radix undefined) and `parseInt(s) \|\| 0` |
| `Digest` | `digest.dfy` | the JSON serialisation of a block in its key order, `btoa` (base64 over Latin-1, which throws above U+00FF), and the twenty-character digest |
| `LedgerStore` | `ledger.dfy` | the `useBlockchain` hook: class `Ledger` with the block list and its stored copy; `addBlock`, `clearLedger`, the load-on-mount effect |
| `Integrity` | `integrity.dfy` | `verifyBlockchainIntegrity` (a loop method) and `verifyBlock` |
| `Contracts` | `contracts.dfy` | class `ContractBook`: `createContract`, `executeContract`; party and condition parsing |
| `Analytics` | `analytics.dfy` | the crop and farmer reductions (a loop over a map), the time series, the exported summary and the CSV text |
| `Tracking` | `tracking.dfy` | class `Tracker`: `addTrackingEvent`, the derived block, `getEventsForBlock` (filter plus stable sort) |
| `Produce` | `produceform.dfy` | class `ProduceForm`: `handleSubmit` |

## How the model is built

**Inputs and calls.** Clock readings, random ids and the saved contents
of `localStorage` are parameters. Each `onAddBlock` call made by a component
becomes a call of `Ledger.AddBlock` on the ledger passed in. For the produce
form that is how the page wires it; for the contract panel and tracking it
is the assumption above. `btoa` throws when a serialised field holds a
character above U+00FF. Text is modelled as Unicode scalar values, so a lone
surrogate, which `JSON.stringify` escapes into ASCII, does not arise (see
"Left out"). `AddBlock` then
returns `false` and changes nothing, because the hash is computed before any
state is set. The calling component stops at the exception. Whatever it set
before the call stays set: the new contract or tracking event stays in its
list, and the form is not reset.

**The digest.** `{"farmer":"` is eleven characters long. Twenty base64
characters encode exactly fifteen input characters. So both digests are the
base64 of one fifteen-character window: the `hash: ""` one that `addBlock`
computes, and the `hash: undefined` one that the verifiers compute. That
window is `{"farmer":"` followed by the first four characters of the escaped
farmer name. This is the reason an added block verifies
(`Digest.DigestsAgree`, `Integrity.AddedChainsVerify`).

**What the integrity check does not detect.** The integrity panel says that
the check ensures all blocks are properly linked and unmodified
(src/components/SmartContracts.tsx:245). A failing walk reports "Blockchain
Compromised" because some blocks have invalid hashes or links
(src/components/SmartContracts.tsx:90-93). The code does not detect every
modification, and the model follows the code.
Edits to crop, quantity, price, notes, index, timestamp or previous hash, and
to any farmer character after the fourth, leave the hash check passing
(`Digest.DigestIgnoresAllButFarmer`, `Integrity.NotesTamperUndetected`).
All contract blocks share one digest (`Contracts.SystemBlocksShareDigest`).

## Model

| member | source | states |
|---|---|---|
| `Blocks.DataOf` | src/types/blockchain.ts:1-11 | the five text fields a block carries besides its position, time and hashes |
| `Blocks.Assemble` | src/hooks/useBlockchain.ts:25-31 | a block built from the five data fields plus index, timestamp, prevHash and hash carries exactly those values |
| `Blocks.NineFields` | src/types/blockchain.ts:1-11 | a block is exactly its data fields plus index, timestamp, prevHash and hash: nothing else |
| `Text.Count` | src/components/BlockchainAnalytics.tsx:124 | occurrences of a character: zero exactly when it is absent, at most the length |
| `Text.CountAppend` | src/components/BlockchainAnalytics.tsx:124 | occurrences in a concatenation add up |
| `Text.Split` | src/components/SmartContracts.tsx:114-115 | `split(c)` gives one more piece than there are separators, and no piece contains one |
| `Text.JoinEnds` | src/components/BlockchainAnalytics.tsx:124 | the first piece opens the joined text and the last piece closes it |
| `Text.SplitJoin` | src/components/BlockchainAnalytics.tsx:124 | joining separator-free pieces and splitting again gives the pieces back |
| `Text.SplitNoSep` | src/components/SmartContracts.tsx:114 | text without the separator splits into itself alone |
| `Text.SplitPrefix` | src/components/SmartContracts.tsx:114 | a separator-free head followed by the separator splits off as the first piece |
| `Text.JoinSplit` | src/components/SmartContracts.tsx:114 | splitting and joining with the same separator gives the text back |
| `Text.JoinConsHead` | src/components/BlockchainAnalytics.tsx:124 | a character before the first piece lands before the joined text |
| `Text.CountJoin` | src/components/BlockchainAnalytics.tsx:124 | a joined line holds one separator between each pair of pieces, plus those inside the pieces |
| `Text.CountAll` | src/components/BlockchainAnalytics.tsx:124 | the separator count over all pieces is zero exactly when no piece contains one |
| `Text.TrimStart` | src/components/SmartContracts.tsx:114 | the result is a suffix, only white space was dropped, and it starts with no white space |
| `Text.TrimEnd` | src/components/SmartContracts.tsx:114 | the result is a prefix, only white space was dropped, and it ends with no white space |
| `Text.Trim` | src/components/SmartContracts.tsx:114-115 | `trim()` is no longer than its input, has no white space at either end, and is empty exactly when every character is white space (the blank-condition filter) |
| `Text.TrimShape` | src/components/SmartContracts.tsx:114 | a trimmed string has no white space at either end, and holds only characters of the original |
| `Text.InnerChars` | src/components/SmartContracts.tsx:114 | each character of a slice of a suffix of a text occurs in that text |
| `Text.TrimOfTrimmed` | src/components/SmartContracts.tsx:114 | trimming an already trimmed name, with or without a leading blank, gives the name |
| `Text.Spaced` | src/components/SmartContracts.tsx:128 | each piece gets one leading blank |
| `Text.JoinCommaSpace` | src/components/SmartContracts.tsx:128 | `join(", ")` is `join(",")` of the pieces with a blank before every piece after the first |
| `Text.DigitChar` | src/components/BlockchainAnalytics.tsx:114 | the decimal digit character of a value below ten |
| `Text.NatToString` | src/components/BlockchainAnalytics.tsx:114 | a non-empty run of decimal digits with no leading zero |
| `Text.IntToString` | src/hooks/useBlockchain.ts:21 | JSON's text of an integer: a leading minus exactly for a negative number, and only digits after it |
| `JsParse.DigitValue` | src/components/BlockchainAnalytics.tsx:41 | a character's digit value is at most 36, where 36 means no digit |
| `JsParse.DigitPrefix` | src/components/BlockchainAnalytics.tsx:41 | the longest prefix of digits in the radix: a prefix, all digits, stopped by a non-digit |
| `JsParse.ParseInt` | src/components/BlockchainAnalytics.tsx:41 | NaN for text that is blank after white space; a negative result only after a minus; unsigned text parses as its magnitude |
| `JsParse.ParseMagnitude` | src/components/BlockchainAnalytics.tsx:41 | without a `0x` prefix a number exactly when the text starts with a decimal digit; after `0x` or `0X` a number exactly when a hex digit follows |
| `JsParse.ParseIntOrZero` | src/components/BlockchainAnalytics.tsx:41 | a non-zero result is the parsed number; 0 exactly when the parse is NaN or zero |
| `JsParse.IntToStringParses` | src/components/SmartContracts.tsx:168 | the decimal text of any integer, negative ones included, parses back to it |
| `JsParse.ParseNatToString` | src/components/SmartContracts.tsx:168 | the decimal text of `n` parses back to `n` |
| `JsParse.DigitPrefixAll` | src/components/BlockchainAnalytics.tsx:41 | an all-digit text is its own digit prefix |
| `JsParse.NatDigitsValue` | src/components/BlockchainAnalytics.tsx:41 | the value of `n`'s decimal digits is `n` |
| `JsParse.ParsePositiveDecimal` | src/components/BlockchainAnalytics.tsx:41 | leading blanks, digits of `n`, then a tail that starts with no digit: the parse is `n` |
| `JsParse.ParseNegativeDecimal` | src/components/BlockchainAnalytics.tsx:41 | the same after a minus sign: the parse is `-n` |
| `JsParse.ParseHexDigits` | src/components/BlockchainAnalytics.tsx:41 | blanks, `0x` or `0X`, hex digits, then a non-hex character: the parse is the hex value |
| `JsParse.ParsePlusDecimal` | src/components/BlockchainAnalytics.tsx:41 | the same as a plain decimal after a plus sign: the parse is `n` |
| `JsParse.ParsePlus` | src/components/BlockchainAnalytics.tsx:41 | a plus before the magnitude is dropped |
| `JsParse.ParseUnsigned` | src/components/BlockchainAnalytics.tsx:41 | unsigned text parses to its magnitude |
| `JsParse.ParseMinus` | src/components/BlockchainAnalytics.tsx:41 | a minus before the magnitude negates it |
| `JsParse.MagnitudeDecimal` | src/components/BlockchainAnalytics.tsx:41 | decimal digits then a non-digit (not `0x`) read as their value in radix 10 |
| `JsParse.DigitPrefixStops` | src/components/BlockchainAnalytics.tsx:41 | the digit prefix stops at the first non-digit |
| `JsParse.SkipBlanks` | src/components/BlockchainAnalytics.tsx:41 | leading white space is skipped and nothing more |
| `JsParse.WordsAreZero` | src/components/BlockchainAnalytics.tsx:41 | text starting with a lower-case letter is NaN, so `parseInt(..) \|\| 0` is 0 |
| `JsParse.ParseUnitSuffix` | src/components/BlockchainAnalytics.tsx:41 | "12kg" counts as 12 |
| `JsParse.ParseFraction` | src/components/BlockchainAnalytics.tsx:41 | "12.9" counts as 12 |
| `JsParse.TwoDigitsThen` | src/components/BlockchainAnalytics.tsx:41 | two digits (not starting with 0) then a non-digit parse to their value |
| `JsParse.TwoDigitText` | src/components/BlockchainAnalytics.tsx:41 | the decimal text of a two-digit value is those two digits |
| `JsParse.ParseWord` | src/components/BlockchainAnalytics.tsx:41 | "abc" is NaN and counts as 0 |
| `JsParse.ParseBlankSign` | src/components/BlockchainAnalytics.tsx:41 | "  -7" counts as -7: blanks skipped, sign kept |
| `JsParse.ParseTrailingLetter` | src/components/SmartContracts.tsx:168 | "1x" parses to 1 |
| `JsParse.ParseHexLiteral` | src/components/BlockchainAnalytics.tsx:41 | "0x1A" parses to 26 |
| `JsParse.HexLiteralParts` | src/components/BlockchainAnalytics.tsx:41 | "1A" has the hex value 26 |
| `JsParse.ParseBareHexPrefix` | src/components/BlockchainAnalytics.tsx:41 | "0x" with nothing after it is NaN |
| `JsParse.ParsePlusLiteral` | src/components/BlockchainAnalytics.tsx:41 | "+5" parses to 5 |
| `JsParse.PlusLiteralParts` | src/components/BlockchainAnalytics.tsx:41 | "+5" is a plus sign before the decimal text of 5 |
| `Digest.Latin1Concat` | src/hooks/useBlockchain.ts:21 | a concatenation is encodable by `btoa` exactly when both parts are |
| `Digest.HexDigit` | src/hooks/useBlockchain.ts:21 | the hex digit in a `\u00XX` escape is ASCII |
| `Digest.EscapeChar` | src/hooks/useBlockchain.ts:21 | every character's JSON escape is non-empty |
| `Digest.EscapeCharLatin1` | src/hooks/useBlockchain.ts:21 | a character's escape is Latin-1 exactly when the character is |
| `Digest.Escape` | src/hooks/useBlockchain.ts:21 | escaping never shortens a string |
| `Digest.EscapeLatin1` | src/hooks/useBlockchain.ts:21 | an escaped string is Latin-1 exactly when the string is |
| `Digest.Quote` | src/hooks/useBlockchain.ts:21 | a JSON string literal has at least its two quotes |
| `Digest.KeyName` | src/hooks/useBlockchain.ts:25-31 | every key name is Latin-1 |
| `Digest.Head` | src/hooks/useBlockchain.ts:21 | the serialisation's opening up to the crop key is at least twenty characters |
| `Digest.Window` | src/hooks/useBlockchain.ts:21 | the digest window is fifteen characters |
| `Digest.StringifyHead` | src/hooks/useBlockchain.ts:21 | every serialisation that starts with farmer then crop starts with that opening |
| `Digest.SerialiseHead` | src/hooks/useBlockchain.ts:21 | `JSON.stringify` of a block, with or without the hash key, opens with the farmer member and the crop key and closes with a brace |
| `Digest.SerialiseWindow` | src/components/SmartContracts.tsx:69-72 | the `hash: ""` and the `hash: undefined` serialisations both start with the same fifteen-character window |
| `Digest.EscapePlainPrefix` | src/hooks/useBlockchain.ts:21 | characters that need no escape are copied unchanged at the front |
| `Digest.PlainWindow` | src/hooks/useBlockchain.ts:21 | when the farmer's first four characters need no escape, the window is `{"farmer":"` plus those four |
| `Digest.HeadOfFarmer` | src/hooks/useBlockchain.ts:21 | the opening is `{"farmer":"`, the escaped farmer, a quote, a comma and the crop key |
| `Digest.QuoteLatin1` | src/hooks/useBlockchain.ts:21 | a JSON string literal is Latin-1 exactly when its content is |
| `Digest.MemberLatin1` | src/hooks/useBlockchain.ts:21 | one `"key":value` member is Latin-1 exactly when its field is |
| `Digest.MembersLatin1` | src/hooks/useBlockchain.ts:21 | a member list is Latin-1 exactly when every listed field is |
| `Digest.SerialiseLatin1` | src/hooks/useBlockchain.ts:21 | `btoa` accepts the serialisation exactly when every text field of the block is Latin-1 |
| `Digest.MembersIgnoreHash` | src/components/SmartContracts.tsx:69-72 | members without the hash key do not depend on the hash |
| `Digest.VerifyIgnoresHash` | src/components/SmartContracts.tsx:69-72 | with `hash: undefined` the recomputed digest does not depend on the stored hash |
| `Digest.B64Char` | src/hooks/useBlockchain.ts:21 | each base64 digit is ASCII |
| `Digest.B64Inverse` | src/hooks/useBlockchain.ts:21 | the base64 alphabet decodes back to each sextet |
| `Digest.EncodeGroup` | src/hooks/useBlockchain.ts:21 | three bytes encode as four characters |
| `Digest.DecodeGroup` | src/hooks/useBlockchain.ts:21 | four characters decode as three bytes |
| `Digest.DecodeEncodeGroup` | src/hooks/useBlockchain.ts:21 | decoding an encoded group gives its three bytes back |
| `Digest.Base64` | src/hooks/useBlockchain.ts:21 | `btoa` output has four characters per started group of three |
| `Digest.Codes` | src/hooks/useBlockchain.ts:21 | the code points of a string, position by position |
| `Digest.DecodeBase64` | src/hooks/useBlockchain.ts:21 | base64 of whole groups decodes back to the input's code points |
| `Digest.Latin1Suffix` | src/hooks/useBlockchain.ts:21 | a suffix of Latin-1 text is Latin-1 |
| `Digest.DecodeConcat` | src/hooks/useBlockchain.ts:21 | decoding a group followed by more groups decodes each in turn |
| `Digest.CodesCons` | src/hooks/useBlockchain.ts:21 | the first three code points, then the rest |
| `Digest.Base64Prefix` | src/hooks/useBlockchain.ts:21 | the first `4k` base64 characters are the base64 of the first `3k` input characters |
| `Digest.EncodableIsLatin1` | src/hooks/useBlockchain.ts:21 | what `btoa` accepts is exactly Latin-1 text |
| `Digest.Digest` | src/hooks/useBlockchain.ts:21 | `btoa(..).slice(0, 20)` is defined exactly for Latin-1 text; it has twenty characters exactly when the text has at least thirteen, and the whole padded base64 otherwise |
| `Digest.DigestOfLong` | src/hooks/useBlockchain.ts:21 | text of at least fifteen characters has a twenty-character digest, the base64 of its first fifteen |
| `Digest.SideDigest` | src/components/SmartContracts.tsx:69-72 | either serialisation's digest exists exactly for Latin-1 fields, and is then the twenty-character base64 of the window |
| `Digest.DigestsAgree` | src/hooks/useBlockchain.ts:30-33 | on a block whose hash is still empty, the add-side and verify-side digests are equal, both fail together, and have twenty characters |
| `Digest.AppendEncodes` | src/hooks/useBlockchain.ts:20-21 | `calculateHash` with the hash still Latin-1 is defined exactly when every other field is Latin-1, and then has twenty characters |
| `Digest.VerifyEncodes` | src/components/SmartContracts.tsx:69-72 | the verifier's recomputation throws exactly when a field is outside Latin-1, and otherwise has twenty characters |
| `Digest.DigestIgnoresAllButFarmer` | src/components/SmartContracts.tsx:69-74 | two encodable blocks with the same farmer have the same recomputed digest, whatever their other fields |
| `Digest.DigestSeesWindow` | src/components/SmartContracts.tsx:69-74 | blocks with different windows have different digests |
| `Digest.Base64Injective` | src/hooks/useBlockchain.ts:21 | base64 of whole groups is injective |
| `LedgerStore.PrevHashFor` | src/hooks/useBlockchain.ts:29 | the last block's hash, or "0" on an empty ledger |
| `LedgerStore.Candidate` | src/hooks/useBlockchain.ts:25-31 | the new block: index is the old length, prevHash links back, hash is empty, data and time as given |
| `LedgerStore.Append` | src/hooks/useBlockchain.ts:24-37 | defined exactly when the candidate encodes; then the old blocks are kept and one block is added at the end, with index, link, data, time and a twenty-character hash that the verifier recomputes |
| `LedgerStore.AppendKeeps` | src/hooks/useBlockchain.ts:27-35 | an append keeps a ledger linked and sealed |
| `LedgerStore.AppendKeepsLinked` | src/hooks/useBlockchain.ts:27-29 | a block with the next index and the right prevHash keeps the chain linked |
| `LedgerStore.AppendKeepsSealed` | src/hooks/useBlockchain.ts:33 | a block carrying its own add-side digest keeps the chain sealed |
| `LedgerStore.Replay` | src/hooks/useBlockchain.ts:24-38 | a ledger built by a run of adds is never longer than the run |
| `LedgerStore.ReplayKeeps` | src/hooks/useBlockchain.ts:27-35 | after any run of adds from empty, the ledger is linked and sealed |
| `LedgerStore.SealedHashes` | src/hooks/useBlockchain.ts:21 | every hash in a ledger built by adds has twenty characters |
| `LedgerStore.LinkedMeans` | src/hooks/useBlockchain.ts:27-29 | in a linked ledger block 0 points at "0", each later block at its predecessor's hash, and `index == i` |
| `LedgerStore.Ledger.constructor` | src/hooks/useBlockchain.ts:7 | the list starts empty, before the load effect runs |
| `LedgerStore.Ledger.Load` | src/hooks/useBlockchain.ts:9-18 | stored blocks replace the list; absent, empty or unparseable storage keeps it; storage is never written |
| `LedgerStore.Ledger.AddBlock` | src/hooks/useBlockchain.ts:24-38 | succeeds exactly when the candidate encodes; then list and storage both hold `Append`'s result; otherwise neither changes; linked and sealed ledgers stay so |
| `LedgerStore.Ledger.Clear` | src/hooks/useBlockchain.ts:54-57 | the list is empty and the storage entry is removed |
| `Integrity.Scan` | src/components/SmartContracts.tsx:64-97 | one result per block in order, each the block's verdict; a throwing recompute aborts; `isValid` is true exactly when every block's hash and link hold |
| `Integrity.VerifierRecompute` | src/components/SmartContracts.tsx:69-75 | with the verifier's digest, "recomputes" means "encodable" and "hash matches" means the hash check |
| `Integrity.VerifyIntegrity` | src/components/SmartContracts.tsx:54-97 | an empty chain is no data, distinct from a report; a field outside Latin-1 throws; otherwise one result per block with `index = i` and `valid = hashValid && prevHashValid`, and `isValid` exactly when the chain is intact |
| `Integrity.SealedBlockVerifies` | src/components/SmartContracts.tsx:69-74 | a block carrying its add-side digest passes the hash check |
| `Integrity.IntactEncodable` | src/components/SmartContracts.tsx:69-74 | an intact chain is encodable |
| `Integrity.AddedChainsVerify` | src/components/SmartContracts.tsx:64-87 | every chain built by `addBlock` verifies as valid |
| `Integrity.PrevHashEditIsLocal` | src/components/SmartContracts.tsx:75 | editing one block's prevHash changes no other block's link check, and breaks that block's own |
| `Integrity.HashEditDetected` | src/components/SmartContracts.tsx:74 | changing a sealed block's hash fails its hash check and the whole verification |
| `Integrity.HashCheckIgnoresOtherFields` | src/components/SmartContracts.tsx:69-74 | the recomputed digest depends on the farmer field only |
| `Integrity.NotesTamperUndetected` | src/components/SmartContracts.tsx:64-87 | rewriting the notes of any block of an added chain still verifies as valid |
| `Integrity.NotesEditKeepsBlock` | src/components/SmartContracts.tsx:74-75 | after a notes edit, every block keeps both its hash and link checks |
| `Integrity.SelectIndex` | src/components/SmartContracts.tsx:168-169 | an index is selected exactly when `parseInt` gives a number within `0 <= n < length` |
| `Integrity.SelectDecimal` | src/components/SmartContracts.tsx:168-169 | a typed decimal index selects that block when it is in range, and nothing otherwise |
| `Integrity.CheckBlock` | src/components/SmartContracts.tsx:178-186 | encode failure exactly when a field is outside Latin-1; otherwise `isValid` is the hash check and `expectedMatch` holds when the expected hash is empty or equal |
| `Integrity.VerifyBlock` | src/components/SmartContracts.tsx:167-186 | an invalid index exactly when no block is selected; otherwise the check of the selected block |
| `Integrity.VerifyBlockAgreesWithWalk` | src/components/SmartContracts.tsx:178-184 | the single-block check gives the same hash verdict as the full walk |
| `Integrity.VerifyBlockIgnoresLinkage` | src/components/SmartContracts.tsx:178-186 | the single-block check never looks at prevHash |
| `Integrity.CheckBlockSame` | src/components/SmartContracts.tsx:178-186 | blocks with equal digests and hashes get the same check |
| `Integrity.VerifyBlockOfSealed` | src/components/SmartContracts.tsx:178-186 | a block of an added chain, checked against its own hash, passes both checks |
| `Integrity.VerifyBlockTrailingLetter` | src/components/SmartContracts.tsx:168 | "1x" is checked as block 1 |
| `Integrity.VerifyBlockNegative` | src/components/SmartContracts.tsx:169 | a negative index is rejected |
| `Integrity.VerifyBlockTooLarge` | src/components/SmartContracts.tsx:169 | an index at or past the length is rejected |
| `Contracts.Parties` | src/components/SmartContracts.tsx:114 | one party per comma plus one, each trimmed and comma-free |
| `Contracts.NonBlank` | src/components/SmartContracts.tsx:115 | the lines whose trim is non-empty, kept as they are; nothing else |
| `Contracts.ConditionsLines` | src/components/SmartContracts.tsx:115 | the conditions are the non-blank lines: no more than there are lines, each one a whole non-blank line, every non-blank line among them; one non-blank line is the one condition |
| `Contracts.NewContract` | src/components/SmartContracts.tsx:111-118 | the contract: pending, given id and time, kind and terms from the form, parsed parties and conditions |
| `Contracts.CreatedData` | src/components/SmartContracts.tsx:123-129 | the creation block: system farmer, "Contract Created", 1, 0, and the id, type and joined parties in the notes |
| `Contracts.ExecutedData` | src/components/SmartContracts.tsx:152-158 | the execution block: system farmer, "Contract Executed", 1, 0, and a note naming the id |
| `Contracts.Activate` | src/components/SmartContracts.tsx:146-150 | same length; each contract with the id becomes active; every other is unchanged |
| `Contracts.ContractBook.constructor` | src/components/SmartContracts.tsx:40-46 | no contracts, and the form holds supply_chain with empty fields |
| `Contracts.ContractBook.CreateContract` | src/components/SmartContracts.tsx:101-142 | empty parties or terms changes nothing; otherwise the contract is appended; the creation block is recorded exactly when it encodes, and only then is the form reset |
| `Contracts.ContractBook.ExecuteContract` | src/components/SmartContracts.tsx:145-164 | contracts become `Activate`'s result, and an execution block is added even when no id matches; it fails only when it does not encode |
| `Contracts.PartiesOfPieces` | src/components/SmartContracts.tsx:114 | parties are the trimmed comma pieces, position by position |
| `Contracts.PartiesOfJoin` | src/components/SmartContracts.tsx:114-128 | trimmed comma-free names joined with ", " parse back to the same names |
| `Contracts.PieceOf` | src/components/SmartContracts.tsx:114 | a name with or without a leading blank trims to the name |
| `Contracts.PartiesRoundTrip` | src/components/SmartContracts.tsx:114-128 | the parties written into a creation block parse back to the same parties |
| `Contracts.NonBlankKeepsAll` | src/components/SmartContracts.tsx:115 | with no blank line, nothing is dropped |
| `Contracts.NonBlankDrops` | src/components/SmartContracts.tsx:115 | a blank line is dropped and the lines around it are kept in order |
| `Contracts.ActivateIdempotent` | src/components/SmartContracts.tsx:146-150 | executing the same id twice gives the same list |
| `Contracts.ActivateUnknown` | src/components/SmartContracts.tsx:146-150 | an id no contract has leaves the list unchanged |
| `Contracts.ActivateKeepsRecords` | src/components/SmartContracts.tsx:146-150 | only the status can change, and only to active on a matching id |
| `Contracts.SystemBlocksShareDigest` | src/components/SmartContracts.tsx:123-129 | every contract block has the same hash, the base64 of `{"farmer":"Smar`, whatever its notes |
| `Contracts.SystemWindow` | src/components/SmartContracts.tsx:124 | the window of a contract block is `{"farmer":"Smar` |
| `Contracts.SystemWindowText` | src/components/SmartContracts.tsx:124 | the first four characters of the system farmer are "Smar" |
| `Analytics.OccursSnoc` | src/components/BlockchainAnalytics.tsx:30-45 | a name occurs in a chain plus one block exactly when it is in the chain or names that block |
| `Analytics.Names` | src/components/BlockchainAnalytics.tsx:30-50 | the group names in first-occurrence order: distinct, exactly the names that occur, no more than the blocks |
| `Analytics.TallyOf` | src/components/BlockchainAnalytics.tsx:30-45 | the tally of a name is labelled with it |
| `Analytics.TalliesFor` | src/components/BlockchainAnalytics.tsx:47-50 | one tally per name, in order |
| `Analytics.Listed` | src/components/BlockchainAnalytics.tsx:47 | reading the accumulator in key order gives one entry per key |
| `Analytics.GroupBlocks` | src/components/BlockchainAnalytics.tsx:30-76 | the reduction loop, by crop (30-45) or by farmer (62-76), gives exactly the specified grouping |
| `Analytics.AccumulateStep` | src/components/BlockchainAnalytics.tsx:32-44 | one reduce step keeps the accumulator equal to the grouping of the blocks read so far |
| `Analytics.KeysStep` | src/components/BlockchainAnalytics.tsx:32-40 | a new key is added to the accumulator and to the order together |
| `Analytics.ValuesStep` | src/components/BlockchainAnalytics.tsx:41-43 | after a step every entry is the tally of the longer prefix |
| `Analytics.ListedGroups` | src/components/BlockchainAnalytics.tsx:47 | the finished accumulator lists as the grouping |
| `Analytics.Bump` | src/components/BlockchainAnalytics.tsx:41-43 | a block adds its parsed quantity and one block to its group |
| `Analytics.NamesStep` | src/components/BlockchainAnalytics.tsx:32-40 | the names of a longer prefix gain the block's name exactly when it is new |
| `Analytics.TallyStep` | src/components/BlockchainAnalytics.tsx:41-43 | the tally of a longer prefix is the old tally, bumped when the block has that name |
| `Analytics.AbsentZero` | src/components/BlockchainAnalytics.tsx:33-39 | a name that never occurs has zero quantity and zero blocks, as a fresh entry starts |
| `Analytics.CountPositive` | src/components/BlockchainAnalytics.tsx:43 | every occurring name has at least one block |
| `Analytics.GroupsAreDistinctNames` | src/components/BlockchainAnalytics.tsx:30-50 | one group per distinct name, labelled with it, counting that name's blocks and summing its parsed quantities |
| `Analytics.SpreadStep` | src/components/BlockchainAnalytics.tsx:86 | adding a block raises the sum over distinct names by that block's weight |
| `Analytics.GroupTotals` | src/components/BlockchainAnalytics.tsx:86 | the groups' sums add up to the chain's total |
| `Analytics.CountTotal` | src/components/BlockchainAnalytics.tsx:85 | the block counts add up to the ledger length |
| `Analytics.TallyTotalSpread` | src/components/BlockchainAnalytics.tsx:86 | summing the tallies' quantities is summing per name |
| `Analytics.ExportSummary` | src/components/BlockchainAnalytics.tsx:84-90 | `totalBlocks` is the length, `totalQuantity` the sum of all parsed quantities, and the unique counts are the numbers of distinct crops and farmers |
| `Analytics.UniqueCounts` | src/components/BlockchainAnalytics.tsx:88-89 | the number of groups is the number of distinct names |
| `Analytics.DistinctCard` | src/components/BlockchainAnalytics.tsx:88-89 | a list of distinct names has as many elements as its set |
| `Analytics.TimeSeries` | src/components/BlockchainAnalytics.tsx:53-59 | one point per block, with its position and parsed quantity |
| `Analytics.SeriesMatchesSummary` | src/components/BlockchainAnalytics.tsx:53-59 | the series quantities add up to the summary's total |
| `Analytics.Row` | src/components/BlockchainAnalytics.tsx:113-121 | seven fields: position, farmer, crop, raw quantity, raw price, value, timestamp |
| `Analytics.CsvRows` | src/components/BlockchainAnalytics.tsx:111-122 | the header, then one row per block in order |
| `Analytics.Lines` | src/components/BlockchainAnalytics.tsx:124 | each row joined with "," |
| `Analytics.Csv` | src/components/BlockchainAnalytics.tsx:124 | `csvContent` opens with the header line, closes with the last block's line, and holds at least one line break per block |
| `Analytics.HeaderPlain` | src/components/BlockchainAnalytics.tsx:112 | no header cell holds a comma or a newline |
| `Analytics.RowFree` | src/components/BlockchainAnalytics.tsx:113-121 | when no field holds the character, no cell of the row does |
| `Analytics.LineFree` | src/components/BlockchainAnalytics.tsx:124 | a joined line holds no newline when its cells hold none |
| `Analytics.CsvReadBack` | src/components/BlockchainAnalytics.tsx:124 | without newlines in the fields, splitting the CSV at newlines gives back one line per row |
| `Analytics.RowReadBack` | src/components/BlockchainAnalytics.tsx:113-124 | without commas in the fields, a line splits back into its seven cells, and the first parses back to the position |
| `Analytics.CommaInFarmerShifts` | src/components/BlockchainAnalytics.tsx:115-124 | each comma in the farmer adds one field: the line splits into 7 plus that many |
| `Analytics.RowCommas` | src/components/BlockchainAnalytics.tsx:113-121 | the commas inside a row are those of the farmer |
| `Tracking.NewEvent` | src/components/SupplyChainTracking.tsx:80-91 | the event carries the selected index, given id and time, and location, status, quality, handler and notes from the form |
| `Tracking.TrackingData` | src/components/SupplyChainTracking.tsx:96-103 | the derived block: handler as farmer, crop plus " - Tracking", quantity and price copied, and the event's notes |
| `Tracking.EventNotesShape` | src/components/SupplyChainTracking.tsx:102 | the notes are the status, location and quality sentence, followed by `Notes: ...` only when notes are non-empty |
| `Tracking.Tracker.constructor` | src/components/SupplyChainTracking.tsx:42-52 | no events, no selection, and the default form |
| `Tracking.Tracker.Select` | src/components/SupplyChainTracking.tsx:179 | clicking a block selects its index and changes nothing else |
| `Tracking.Tracker.AddTrackingEvent` | src/components/SupplyChainTracking.tsx:70-119 | no selection, location or handler changes nothing; otherwise exactly one event is appended; a selection past the end stops there; the derived block is recorded exactly when it encodes, and only then is the form reset to transit, A and empty fields |
| `Tracking.DerivedBlock` | src/components/SupplyChainTracking.tsx:96-103 | the recorded block is the new last block, with the handler, tracked crop, copied quantity and price, and the event's notes |
| `Tracking.ForBlock` | src/components/SupplyChainTracking.tsx:150-151 | the events of that block, each exactly as often as it was recorded, and no other |
| `Tracking.ForBlockAppend` | src/components/SupplyChainTracking.tsx:150-151 | filtering a concatenation filters each part |
| `Tracking.Insert` | src/components/SupplyChainTracking.tsx:152 | inserting an event lengthens the list by one |
| `Tracking.SortByTime` | src/components/SupplyChainTracking.tsx:152 | sorting keeps the length |
| `Tracking.InsertPermutes` | src/components/SupplyChainTracking.tsx:152 | insertion adds exactly the inserted event |
| `Tracking.InsertSorted` | src/components/SupplyChainTracking.tsx:152 | insertion keeps a list in time order |
| `Tracking.SortedSnoc` | src/components/SupplyChainTracking.tsx:152 | an event no earlier than all others may go last |
| `Tracking.SortSortsAndPermutes` | src/components/SupplyChainTracking.tsx:152 | the sort orders by non-decreasing time and is a permutation |
| `Tracking.AtAppend` | src/components/SupplyChainTracking.tsx:152 | the events at one time in a concatenation are those of each part |
| `Tracking.InsertStable` | src/components/SupplyChainTracking.tsx:152 | an inserted event goes after the events with the same time |
| `Tracking.SortStable` | src/components/SupplyChainTracking.tsx:152 | events with equal times keep their relative order |
| `Tracking.ForBlockAt` | src/components/SupplyChainTracking.tsx:150-151 | the events of one time among those of one block are the events of that block among those of that time, in recording order |
| `Tracking.EventsForBlock` | src/components/SupplyChainTracking.tsx:149-153 | `getEventsForBlock` returns the block's events, each as often as it was recorded, in non-decreasing time, and the events of one time in the order they were recorded |
| `Produce.ProduceForm.constructor` | src/components/ProduceForm.tsx:19-25 | all five fields start empty |
| `Produce.ProduceForm.HandleSubmit` | src/components/ProduceForm.tsx:28-53 | an empty farmer, crop, quantity or price changes nothing; otherwise the five fields are added unchanged; the form is cleared only when the add returns |
| `Produce.JunkQuantityCountsZero` | src/components/ProduceForm.tsx:31 | a blank or non-numeric quantity passes the form and counts as 0 in the analytics |

## Left out

- Floating point. `parseFloat(price)`, the `value` and `avgPrice` of a group, `toFixed`, the summary's `totalValue`, and the temperature and humidity of an event are not modelled. The CSV value column is the parameter `value` of `Analytics.CsvRows`.
- JsParse.ParseInt: integers are exact. JavaScript rounds numbers beyond 2^53 to doubles. A negative zero is returned as 0, which every caller treats the same.
- Clocks and randomness. `new Date().toLocaleString()`, `toISOString()`, the `Math.random` ids and `getTime()` are parameters: timestamps, ids, and the `millis` function that orders events. `toLocaleDateString` in the time series is omitted.
- JSON and storage. `JSON.parse`'s result is modelled as `Storage`: absent, unparseable, or a block list. A stored text that parses to something other than a block list is not modelled. `JSON.stringify` is written out only for blocks in the key order every caller produces: farmer, crop, quantity, price, notes, index, timestamp, prevHash, hash. The verifier's `{...block, hash: undefined}` keeps that order.
- Analytics.GroupBlocks: groups come in first-occurrence order. `Object.values` lists array-index-like names (such as a crop named "7") first, in ascending numeric order. A name such as `__proto__` misbehaves in a plain object. Neither quirk is modelled.
- React scheduling. Each handler runs atomically on the current state. Two adds in one render tick, which could reuse an index, are not modelled, and neither are closures that read stale state.
- Download plumbing: `Blob`, object URLs and anchor clicks in `exportLedger`, `exportAnalytics` and `exportCSV`. Only the text being built is modelled. The pretty-printed `exportLedger` JSON and the analytics JSON file are not modelled.
- Text. A JavaScript string is a sequence of UTF-16 units; the model's strings are sequences of Unicode scalar values, so a lone surrogate is not modelled. `JSON.stringify` escapes one as `\ud83d`, which `btoa` accepts. So "exactly when every field is Latin-1" in `Digest.SerialiseLatin1`, `Digest.AppendEncodes`, `Digest.VerifyEncodes` and `LedgerStore.Append` holds for text without lone surrogates.
- The IoT `setInterval` in SupplyChainTracking.tsx, which only logs.
- User interface: rendering, toasts, the colour and icon switches, and the `verificationData` and form input handlers.
- Components outside the core: Index.tsx, BlockchainCard.tsx, QRModal.tsx, BlockchainVisualization.tsx and DemandPredictor.tsx are not part of this model.
