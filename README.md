# Accounts and labels of the client, in Dafny

This project models two small pieces of a browser client.

The first is the label parser `labelsToArray`. It takes one free-text field, splits it on `;`, trims each piece, and drops the pieces that are empty after trimming. It then removes repeats: each text is used as a key of a plain JavaScript object, the value `{ text }` is assigned under that key, and the object's values are returned.

The second is the accounts store. The store keeps the list of accounts in memory. After every change it writes the list, as `JSON.stringify` text, to one entry of the browser's key-value storage (localStorage). That entry is under the key `accounts`. The store's actions are:
- `init`: load the list back from storage;
- `set(i, a)`: write `a` at index `i`;
- `remove(i)`: `splice(i, 1)`;
- `save`: write the list to storage.

Modules:
- `Types` (types.dfy): the record shapes `AccountType`, `Label` and `Account`. JavaScript's `string | null` becomes `Option<string>`. The field `type` is called `kind`, because `type` is a Dafny keyword.
- `Strings` (strings.dfy): `String.prototype.trim` and `String.prototype.split` with a one-character separator, with their properties. Trim removes exactly the WhiteSpace and LineTerminator code points of ECMA-262 (2023), sections 12.2 and 12.3.
- `JsObjects` (jsobjects.dfy): the part of ordinary-object semantics the parser observes.
  - Own keys are created by the first assignment to each text.
  - Assigning `__proto__` creates no own property (ECMA-262 Annex B.2.2.1.2).
  - `Object.values` visits the keys in [[OwnPropertyKeys]] order (section 10.1.11.1): array-index keys first, in ascending numeric order, then the other keys in creation order.
- `Labels` (labels.dfy): the parser. `LabelsOf` is the pure specification. `LabelsToArray` and `Deduplicate` are the method with the dictionary loop, proved equal to it. The file also holds the parser's properties.
- `LabelExamples` (label_examples.dfy): worked inputs.
- `Json` (json.dfy): the text the store writes, with a parser of that text standing in for `JSON.parse`.
  - The encoder follows SerializeJSONProperty and QuoteJSONString (ECMA-262 (2023), sections 25.5.2.2 and 25.5.2.3).
  - It writes object members in declaration order.
  - Reading the text back gives the list (`DecodeEncode`), proved by induction with no axiom.
- `AccountStore` (accounts_store.dfy): the store as a class with the fields `accounts` and `storage`. `storage` is a `map<string, string>` standing for localStorage. The file also holds the list operations behind `set` and `remove`, and uses of the store.

In three places the code does something other than one might expect, and the model follows the code:
- Label order. One might expect every label in first-seen order. The code returns `Object.values` of an object, so texts that are array indices come first, in numeric order: "b;1" gives `1` before `b` (`LabelExamples.IndexTextComesFirst`). Only the other texts follow first-seen order.
- The text `__proto__`. It never becomes a label (`LabelExamples.ProtoTextIsDropped`).
- `remove` with an index past the end. It changes no account, but it still saves. A negative index removes counting from the end, as `splice` does.

## Model

| member | source | states |
|---|---|---|
| Strings.IsWhitespace | src/util/account.ts:7 | definition: the WhiteSpace and LineTerminator code points trim removes |
| Strings.TrimStart | src/util/account.ts:7 | what is kept does not start with white space, and everything dropped is white space |
| Strings.TrimStartIsSuffix | src/util/account.ts:7 | trimming the start keeps a suffix of the input |
| Strings.TrimEnd | src/util/account.ts:7 | what is kept does not end with white space, and everything dropped is white space |
| Strings.TrimEndIsPrefix | src/util/account.ts:7 | trimming the end keeps a prefix of the input |
| Strings.Trim | src/util/account.ts:7 | the result of trim has no white space at either end |
| Strings.PrefixOfSuffix | src/util/account.ts:7 | a prefix of a suffix is a slice, with the white space after it carried over |
| Strings.TrimIsSlice | src/util/account.ts:7 | trim returns a slice `s[i..j]` of its input, and everything outside the slice is white space |
| Strings.TrimKeepsChars | src/util/account.ts:7 | every character of a trimmed piece occurs in the piece |
| Strings.TrimOfTrimmed | src/util/account.ts:7 | trim leaves a string with no white space at its ends unchanged (idempotence) |
| Strings.Split | src/util/account.ts:6 | split on `;` always yields at least one piece |
| Strings.SplitLength | src/util/account.ts:6 | split yields one more piece than the input has separators |
| Strings.SplitPiecesLackSeparator | src/util/account.ts:6 | no piece of the split contains the separator |
| Strings.JoinAfterEmpty | src/util/account.ts:6 | joining a list that starts with an empty piece begins with the separator |
| Strings.JoinAfterChar | src/util/account.ts:6 | joining a list whose first piece starts with `c` begins with `c` |
| Strings.JoinSplit | src/util/account.ts:6 | joining the pieces with the separator gives the input back (split loses nothing) |
| Strings.SplitAfterPiece | src/util/account.ts:6 | a separator-free prefix followed by the separator splits off as the first piece |
| Strings.SplitJoin | src/util/account.ts:6 | splitting the join of separator-free pieces gives back those pieces |
| Strings.SplitOfPiece | src/util/account.ts:6 | a string without the separator splits into itself alone |
| Strings.SplitPiecesComeFromInput | src/util/account.ts:6 | every character of every piece occurs in the input |
| Strings.TrimOfBlank | src/util/account.ts:7 | a string made only of white space trims to the empty string |
| JsObjects.FirstIndex | src/util/account.ts:10 | the first position holding `x`, with no `x` before it |
| JsObjects.FirstIndexUnique | src/util/account.ts:10 | that first position is unique |
| JsObjects.CreationOrder | src/util/account.ts:4-10 | the own keys after the assignments are exactly the assigned texts other than `__proto__`, without repeats, and no more of them than assignments |
| JsObjects.CreationOrderAppend | src/util/account.ts:10 | one more assignment creates its key exactly when the key is new and not `__proto__` |
| JsObjects.CreationOrderFollowsFirstOccurrence | src/util/account.ts:10 | keys are created in the order of each text's first occurrence (a repeat only overwrites the value) |
| JsObjects.IndexKeys | src/util/account.ts:11 | the array-index keys are exactly the keys that are array indices, without repeats when the keys have none |
| JsObjects.NamedKeys | src/util/account.ts:11 | the other keys are exactly the keys that are not array indices, without repeats when the keys have none |
| JsObjects.OrderedByTail | src/util/account.ts:10-11 | the tail of an order-respecting sequence respects the order |
| JsObjects.OrderedByCons | src/util/account.ts:10-11 | adding a head that comes first keeps the order |
| JsObjects.NamedKeysKeepOrder | src/util/account.ts:11 | the keys that are not array indices keep their relative creation order |
| JsObjects.Values | src/util/account.ts:11 | one numeric value per key |
| JsObjects.ValuesAt | src/util/account.ts:11 | position `i` of the values is the numeric value of key `i` |
| JsObjects.NondecreasingCons | src/util/account.ts:11 | a head no greater than every element keeps a sequence nondecreasing |
| JsObjects.NondecreasingTail | src/util/account.ts:11 | the tail of a nondecreasing sequence is nondecreasing, and its head is a lower bound |
| JsObjects.InsertByValue | src/util/account.ts:11 | inserting adds exactly the one key, as a multiset |
| JsObjects.AscendingCons | src/util/account.ts:11 | a key no greater in value than every key keeps the order ascending |
| JsObjects.AscendingTail | src/util/account.ts:11 | the tail of an ascending sequence is ascending, and its head is the least value |
| JsObjects.InsertKeepsAscending | src/util/account.ts:11 | insertion keeps the array-index keys in ascending numeric order |
| JsObjects.SortByValue | src/util/account.ts:11 | sorting the array-index keys is a permutation |
| JsObjects.SortIsAscending | src/util/account.ts:11 | the sorted keys are in ascending numeric order |
| JsObjects.SortKeepsDistinct | src/util/account.ts:11 | sorting keeps distinct keys distinct |
| JsObjects.InsertKeepsDistinct | src/util/account.ts:11 | inserting a new key keeps the keys distinct |
| JsObjects.IsArrayIndex | src/util/account.ts:11 | definition: a canonical decimal string of an integer from 0 to 2^32 - 2, the keys enumerated first |
| JsObjects.OwnPropertyKeys | src/util/account.ts:11 | definition: the enumeration order of Object.values, array-index keys ascending then the others in creation order (properties in OwnPropertyKeysOfDistinct, OwnPropertyKeysKeepOrder) |
| JsObjects.OwnPropertyKeysOfDistinct | src/util/account.ts:11 | the keys are enumerated exactly once each, with array indices first in ascending numeric order |
| JsObjects.DistinctCardinality | src/util/account.ts:11 | distinct keys are as many as their set |
| JsObjects.SplitAtSeam | src/util/account.ts:11 | array-index keys come first in the enumeration, and the other keys follow |
| JsObjects.SeamKeepsOrder | src/util/account.ts:11 | after the array-index keys, the other keys keep their creation order |
| JsObjects.OwnPropertyKeysKeepOrder | src/util/account.ts:10-11 | keys that are not array indices are enumerated in the order of their texts' first occurrence |
| Labels.TrimEach | src/util/account.ts:7 | definition: `.map((l) => l.trim())`, the trim of each part in place |
| Labels.NonEmpty | src/util/account.ts:8 | definition: `.filter(Boolean)`, the non-empty strings in order (properties in NonEmptyMembers, NonEmptyLength) |
| Labels.Pieces | src/util/account.ts:5-8 | definition: `splitted`, the split on `;`, trimmed, empties dropped |
| Labels.LabelsOf | src/util/account.ts:3-12 | definition: the pure specification of labelsToArray, one label per own key of the object in enumeration order; every Labels property is stated about it |
| Labels.NonEmptyMembers | src/util/account.ts:8 | `filter(Boolean)` keeps exactly the non-empty strings |
| Labels.NonEmptyLength | src/util/account.ts:8 | the filter never lengthens its input |
| Labels.ValuesOf | src/util/account.ts:11 | definition: `Object.values`, the value of each key in enumeration order; what it yields for the parser's object is stated by ValuesOfSelfLabelled and Deduplicate |
| Labels.LabelsToArray | src/util/account.ts:3-12 | the method with the dictionary loop returns exactly the labels of the pure specification `LabelsOf` |
| Labels.Deduplicate | src/util/account.ts:4-11 | the loop that assigns `obj[text] = { text }` and then reads the object out gives one label per created key, in enumeration order |
| Labels.ValuesOfSelfLabelled | src/util/account.ts:10-11 | reading out an object whose every key maps to the label of that key gives the labels of the keys |
| Labels.PieceOrigin | src/util/account.ts:5-8 | each piece is the non-empty trim of some `;`-separated part |
| Labels.PartIsPiece | src/util/account.ts:5-8 | each part with a non-empty trim gives that trim as a piece |
| Labels.LabelIsPiece | src/util/account.ts:10-11 | each label carries a piece's text, and never `__proto__` |
| Labels.PieceIsLabel | src/util/account.ts:10-11 | each piece other than `__proto__` is returned as a label |
| Labels.LabelsAreTrimmed | src/util/account.ts:7-8 | every returned text is non-empty and equal to its own trim |
| Labels.LabelsLackSeparator | src/util/account.ts:6-10 | no returned text contains `;` |
| Labels.LabelsComeFromInput | src/util/account.ts:5-10 | every returned text is the trim of some `;`-separated part of the input |
| Labels.InputIsLabelled | src/util/account.ts:8-11 | every part whose trim is non-empty, and is not `__proto__`, has its trimmed text among the labels |
| Labels.LabelsAreDistinct | src/util/account.ts:4-10 | no two returned labels have the same text |
| Labels.LabelCountBound | src/util/account.ts:6-11 | there are at most as many labels as `;` characters plus one |
| Labels.BlankInputGivesNoLabels | src/util/account.ts:8-11 | input of only white space and `;` gives no labels; conversely, no labels means every part trims to empty or `__proto__` |
| Labels.LabelsOrder | src/util/account.ts:10-11 | array-index texts come first, in ascending numeric order; the other texts follow in the order of their first occurrence |
| LabelExamples.MixedSplit | src/util/account.ts:6 | "a; b ; a;;c" splits into five parts, the empty one included |
| LabelExamples.MixedPieces | src/util/account.ts:5-8 | those parts trim and filter to a, b, a, c |
| LabelExamples.MixedCreation | src/util/account.ts:10 | the repeat of a creates no second key |
| LabelExamples.MixedInput | src/util/account.ts:3-12 | "a; b ; a;;c" gives the labels a, b, c |
| LabelExamples.EmptyInput | src/util/account.ts:3-12 | the empty field gives no labels |
| LabelExamples.SingleInput | src/util/account.ts:3-12 | "x" gives the one label x |
| LabelExamples.IndexTextComesFirst | src/util/account.ts:10-11 | "b;1" gives 1 before b |
| LabelExamples.ProtoTextIsDropped | src/util/account.ts:10-11 | "__proto__;a" gives only a |
| Json.Expect | src/stores/accounts.ts:13 | a matched literal consumes exactly its own length |
| Json.ParseEscape | src/stores/accounts.ts:13 | an escape sequence read consumes input |
| Json.ParseAccounts | src/stores/accounts.ts:13 | reading an account list consumes input |
| Json.EscapeChar | src/stores/accounts.ts:24 | definition: QuoteJSONString for one code point, the short escapes, `\u00xx` for other control characters, the character itself otherwise |
| Json.Encode | src/stores/accounts.ts:24 | definition: JSON.stringify of the account list (inverse: DecodeEncode, EncodeInjective) |
| Json.Decode | src/stores/accounts.ts:13 | definition: JSON.parse of the stored text as an account list, read in the layout Encode writes (any JSON escape spelling inside strings is accepted); None for white space between tokens, other member orders, extra members, or text that is not JSON |
| Json.EscapeRoundTrip | src/stores/accounts.ts:13-24 | the escaped characters of a string, then its closing quote, read back as that string |
| Json.EscapeCharRoundTrip | src/stores/accounts.ts:13-24 | one escaped character reads back as that character |
| Json.QuoteRoundTrip | src/stores/accounts.ts:13-24 | a quoted string reads back as itself |
| Json.LabelRoundTrip | src/stores/accounts.ts:13-24 | an encoded label reads back as itself |
| Json.LabelsRoundTrip | src/stores/accounts.ts:13-24 | an encoded label array reads back as itself |
| Json.KindRoundTrip | src/stores/accounts.ts:13-24 | an encoded account type reads back as itself |
| Json.PasswordRoundTrip | src/stores/accounts.ts:13-24 | an encoded password, or null, reads back as itself |
| Json.AccountRoundTrip | src/stores/accounts.ts:13-24 | an encoded account reads back as itself |
| Json.AccountsRoundTrip | src/stores/accounts.ts:13-24 | an encoded account list reads back as itself, with nothing left over |
| Json.DecodeEncode | src/stores/accounts.ts:13-24 | `JSON.parse(JSON.stringify(xs))` is `xs` |
| Json.EncodeInjective | src/stores/accounts.ts:24 | different lists are stored as different texts |
| AccountStore.GetItem | src/stores/accounts.ts:12 | definition: localStorage.getItem, the stored value or null; what `init` makes of it is stated by Store.Init and InitWithoutStoredValue |
| AccountStore.SetAt | src/stores/accounts.ts:16 | `accounts[i] = a` below the length replaces element `i` and keeps the length; at the length it appends; other elements are unchanged |
| AccountStore.SpliceStart | src/stores/accounts.ts:20 | definition: the actual start of `splice(i, 1)`, never past the length; what removal then does is stated by RemoveInRange, RemovePastEnd, RemoveNegative and RemoveTakesOne |
| AccountStore.RemoveAt | src/stores/accounts.ts:20 | `splice(i, 1)` shortens the list by one exactly when there is an element at the start |
| AccountStore.RemoveInRange | src/stores/accounts.ts:19-20 | removing at `0 <= i < length` gives `accounts[..i] + accounts[i+1..]` |
| AccountStore.RemovePastEnd | src/stores/accounts.ts:20 | removing at or past the end leaves the list unchanged |
| AccountStore.RemoveNegative | src/stores/accounts.ts:20 | a negative index removes the element at `max(length + i, 0)` |
| AccountStore.RemoveTakesOne | src/stores/accounts.ts:20 | removing takes out exactly one occurrence of one element, or nothing |
| AccountStore.EncodeIsTruthy | src/stores/accounts.ts:13-24 | saved text is never empty, so a later `init` takes its `if (raw)` branch |
| AccountStore.Truthy | src/stores/accounts.ts:13 | definition: the test `if (raw)`, false for null and the empty string |
| AccountStore.Store.Synced | src/stores/accounts.ts:17-24 | definition: the write-through invariant, the entry under `accounts` holds the encoding of the list; Save, Set and Remove establish it |
| AccountStore.Store.constructor | src/stores/accounts.ts:6-9 | a new store starts with no accounts |
| AccountStore.Store.Init | src/stores/accounts.ts:11-14 | with a missing or empty stored value: no change and no error. With a value Decode reads: the accounts become its decoding. Otherwise (text Decode refuses) the model reports a failure and nothing changes. Storage is never written, and a saved list is always restored exactly |
| AccountStore.Store.Save | src/stores/accounts.ts:23-25 | only the entry under `accounts` changes, and it then holds the encoding of the list |
| AccountStore.Store.Set | src/stores/accounts.ts:15-18 | the list becomes `SetAt(old list, i, a)`, and the storage holds its encoding |
| AccountStore.Store.Remove | src/stores/accounts.ts:19-22 | the list becomes `RemoveAt(old list, i)`, and the storage holds its encoding, even when nothing was removed |
| AccountStore.InitWithoutStoredValue | src/stores/accounts.ts:11-14 | with nothing stored, `init` leaves a new store's list empty and does not throw |
| AccountStore.SetTwiceThenReload | src/stores/accounts.ts:11-18 | `set(0, a)`, then `set(1, b)`, then a reload reads back `[a, b]` |
| AccountStore.Reload | src/stores/accounts.ts:11-25 | a store started over saved storage restores exactly the saved list |
| AccountStore.RemoveMiddle | src/stores/accounts.ts:19-22 | `remove(1)` on `[a, b, c]` leaves `[a, c]`, already saved |
| AccountStore.RemoveOutOfRange | src/stores/accounts.ts:19-22 | `remove(5)` on `[a]` leaves `[a]`, saved and without failing |
| AccountStore.SaveTwice | src/stores/accounts.ts:23-25 | two saves in a row store the same text |

## Left out

- src/hooks/useResizeObserver.ts is not part of this model. It binds a DOM ResizeObserver to the Vue component lifecycle, and nothing in it can be stated without the browser.
- Pinia's `defineStore` and Vue reactivity are left out. The store is a plain class.
- Real localStorage is not modelled. Storage is a map held by the store, so quota errors, other tabs writing, and `setItem` throwing are not modelled.
- Object identity is left out. Accounts are values, so aliasing between the stored list and objects held elsewhere is not captured.
- AccountStore.Store.Set: the precondition `0 <= i <= |accounts|` leaves out assignments further past the end, at a negative index, or at a non-integer index. In JavaScript these make holes (written as `null`) or properties that `JSON.stringify` ignores.
- AccountStore.Store.Remove: the index is an integer. `splice` would first convert a fractional, NaN or infinite index with ToIntegerOrInfinity.
- Json.Decode: only the layout `JSON.stringify` writes for an account list is read back, with any JSON escape spelling inside strings (`\/`, upper-case hex digits, `\u` escapes of any non-surrogate code point). Other valid JSON in storage, such as text with white space between tokens, members in another order, or extra members, reads as a failure here, where JSON.parse would accept it. So `Store.Init`'s `thrown` outcome is wider than the source's.
- AccountStore.Store.Init: on stored text that is valid JSON but that Decode refuses (for example `[ ]`, with white space, other member orders or extra members), the model reports `thrown` and keeps the list. The source assigns whatever `JSON.parse` returns, which need not even be an array. Only on text that is not valid JSON do the two agree that parsing fails and the list is kept.
- Json.Decode: a `\u` escape of a UTF-16 surrogate is refused. Strings are sequences of Unicode scalar values, so lone surrogates and surrogate pairs are not modelled.
- Member order in the stored text: the members of an account object are written in the declaration order of src/types/account.ts. The order in which the application builds objects is not visible in the modelled files.
- Unicode: trim compares code points by value, with no normalisation. The white-space set is that of ECMA-262 (2023), with the space separators of Unicode 15.
