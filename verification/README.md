# Verification of the account abstraction SDK

A Dafny model of the two parts of this Go SDK whose correctness crosses function boundaries.

**The user operation pipeline** (ERC-4337, entry point v0.7). `FillAndSign` fills a user operation in
place, hashes it with a placeholder in the paymaster data, has the verifying signer sign that hash,
puts the signature in its place, packs and hashes the whole operation and has the owner sign it.
`ToBody` then prints the operation a second time, unpacked and in hex. The project proves that the
paymaster's signature is still good for the final operation, that a bundler rebuilds from the body
exactly what was signed (and exactly when it does), and what a signature pins down.

**The shared state**: the round-robin signer provider, sequentially and under arbitrary thread
interleavings, and the bounded address cache in front of the account factory.

| file | contents |
|---|---|
| `Positional.dfy`, `ByteStrings.dfy`, `Text.dfy`, `Abi.dfy` | digits in any base, bytes and padding, hex and decimal text, static ABI words |
| `Signing.dfy` | uninterpreted cryptography, `SignMessage`, address text |
| `UserOps.dfy`, `Packing.dfy`, `Hashing.dfy`, `JsonBody.dfy` | the operation, its packed form, its hashes, its JSON body and the reader of that body |
| `Filling.dfy` | `FillAndSign` as a function of values, and its theorems |
| `Rotation.dfy`, `Interleaving.dfy` | the signer provider, one call at a time and step by step |
| `Delivery.dfy` | what callers on many threads are given: counts, fairness and waiting, in answers |
| `Accounts.dfy` | the cache, runs of whole lookups and of lookups that overlap |
| `Client.dfy` | the methods of `Client` that change an operation, the cache or the rotation |
| `Wrappers.dfy` | `Option` and `Result` |

Keccak-256 and ECDSA are arbitrary functions of the right shape, held in a `Crypto` record. Keccak-256
is not assumed injective, which no function onto 32 bytes is: where equal hashes are meant to give
equal inputs, the conclusion is "equal, or one of these named pairs of byte strings collides". The
chain (nonces, deployed code, the factory's address function, whether a query is answered) is a
parameter. Integers are unbounded, with uint256 reduction, uint32 wrap-around and byte widths
written out where the code has them; a nil `*big.Int` is `None`.

## Where the code departs from what is intended

- `HexToBigInt` does not invert the printing of quantities. It decodes pairs of digits and drops an
  unpaired last one, so a quantity is read back exactly when it is zero or has an even number of
  digits. For any quantity a bundler may answer with: if and only if the string has even length or is
  `0x0` (`HexToBigIntIsExactIff`). The SDK's own default of 200000 reads as 12500.
- The JSON body is not always true to the signed operation. For a deployed account `FillAndSign`
  empties `InitCode` but leaves `Factory` and `FactoryData` as they were, so an operation filled
  before deployment and again after it prints a factory that was not signed
  (`StaleFactoryBreaksTheBody`). Factory data alone would be printed too, although ERC-4337 allows
  it only with a factory. A nonce or preVerificationGas of 2^256 or more is hashed modulo 2^256 but
  printed in full. `FilledBodyAgreesIff` gives the exact condition.
- The comment on `PackInt` says that one nil argument is padded with zeros; the code panics if either
  argument is nil (utils.go:110-115). The model follows the code.
- `HandleOps` reports inner hashes, without entry point and chain, so they are not the hashes that
  `FillAndSign` returns (`InnerHashIsNotUserOpHash`).

## Model

| member | source | states |
|---|---|---|
| Client.Client.FillAndSign | client.go:109-178 | the operation is updated in place to the final state, with the outcome, that `Filling.Fill` assigns to it on every path, errors included |
| Client.Client.AddSignatures | client.go:134-175 | the in-place signing stages, which hash a placeholder, end in the state and outcome defined through the final operation's own hashes |
| Client.Client.FillFields | client.go:110-143 | nonce, initCode and paymaster stages in place; each error leaves the fields filled so far |
| Client.Client.FillInitCode | client.go:121-132 | initCode, factory and factory data set together for a new account; only initCode emptied for a deployed one |
| Client.Client.GetInitCodeData | client.go:193-208 | failed query, nothing for a deployed account, factory address followed by the createAccount call otherwise |
| Client.Client.SignUserOp | client.go:181-191 | the signature of the user operation hash of the configured entry point and chain, with that hash; the zero hash when signing fails |
| Client.Client.GetAccount | client.go:83-97 | without a cache the factory's answer; with one, one lookup step: hit without a query, failure stores nothing, success stores the factory's address |
| Client.Client.HandleOps | client.go:211-236 | panics exactly when there is no signer; otherwise takes the signer whose turn it is and advances the rotation by one, also when the transaction options or the call fail, which are told apart; on success the transaction hash and one inner hash per operation, in order |
| Filling.FillIsTheUniqueSolution | client.go:109-191 | success returns (u, hash) if and only if u and hash satisfy a description of the final operation alone: frame, nonce, initCode by deployment status, paymaster, the window 0 to 2147483647 read from the paymaster data, and the raw signatures of the verifying signer and the owner over the framed digests of that same operation |
| Filling.FillFailsIff | client.go:110-191 | which error comes back and what the operation is then, both exactly: the five errors are told apart by the sender, the failed query or the key whose digest cannot be signed |
| Filling.PreparedIff | client.go:110-143 | the stages before signing have one result: nonce given or queried, initCode, factory and factory data by deployment status, configured paymaster |
| Filling.SignIsTheUniqueSolution | client.go:134-177 | the two-signature stage has exactly one solution, although the paymaster data being signed for contains the signature; window and digests in literal numbers and bytes |
| Filling.SignFailsIff | client.go:134-175 | the signing stage fails exactly when one of the two digests cannot be signed, and what it leaves behind |
| Filling.SignaturesAreNotHashed | client.go:134-175 | exchanging paymaster data and signature keeps the paymaster digest; exchanging the signature keeps the user operation hash |
| Filling.PlaceholderHasFinalLength | client.go:138-163 | placeholder and final paymaster data, and the paymasterAndData around them, have equal length for all limits |
| Filling.FillStaysInFrame | client.go:110-177 | on every path only Nonce (if nil), InitCode, Factory, FactoryData, Paymaster, PaymasterData and Signature change, and what each error leaves untouched |
| Filling.PreparedIsInFrame | client.go:110-143 | the stages before signing stay in the frame and keep signature and paymaster data |
| Filling.FillTwice | client.go:109-191 | refilling a successful result on a chain with the same deployment status changes nothing and returns the same hash |
| Filling.FillIsIdempotent | client.go:109-191 | refilling on the same chain reproduces operation and outcome on every path, errors included |
| Filling.FilledBodyAgreesIff | client.go:121-132 | a bundler rebuilds from the body the packed operation that was signed if and only if limits fit in 16 bytes, nonce and preVerificationGas are uint256, the configured paymaster is set, and the factory is set (new account) or factory and factory data are unset (deployed account) |
| Filling.CheckMatchesResult | client.go:110-177 | the check on the input says what the body agreement needs of the result |
| Filling.BundlerSeesWhatWasSigned | bundler.go:97-103 | under that check the rebuilt operation hashes to the returned hash and carries, at their offsets, the window 0 to 2147483647 and both signatures of its own digests |
| Filling.SignedOperationCarriesItsSignatures | client.go:163-175 | cutting the packed operation at 20, 52, 84, 116 and 181 yields the paymaster, 2147483647, 0, and the verifying signer's raw signature, recovery id shifted, of its own paymaster digest for that window; the signature field is the owner's of its own signing digest |
| Filling.StaleFactoryBreaksTheBody | client.go:126-132 | every operation filled before and again after deployment: if the first body agrees with what was signed, the second does not |
| Filling.StaleFactoryExample | client.go:126-132 | a concrete default operation for which both calls succeed and this happens |
| Filling.SigningSucceeds | client.go:134-177 | once prepared, filling fails only if a signature fails; the "too short" error never happens |
| Filling.CreateAccountDataLayout | client.go:202 | the first 4 bytes of Keccak-256 of the 30 bytes of the function signature, owner and salt at their ABI offsets |
| ByteStrings.PaddedReadsBack | utils.go:118-119 | a padded integer reads back as its absolute value, is never shorter than the slot, and fills it exactly when it fits |
| ByteStrings.PaddedOfNumber | paymaster.go:55 | bytes read as a number and padded back to their width are unchanged |
| Abi.WordAt | utils.go:60-69 | the k-th packed argument is the word at byte 32k |
| Abi.PackInjective | utils.go:60-69 | packed arguments can be taken apart again |
| Packing.PackInt | utils.go:112-122 | fails exactly when an argument is nil, else the 32-byte word of both integers |
| Packing.PackedIntsMeaning | utils.go:112-122 | in range the word is a·2^128 + b and each half reads back |
| Packing.PackedIntsOfAny | utils.go:112-122 | for integers of any sign and size: the word is the leading 32 bytes of both absolute values, each written in at least 16 bytes, and how much is lost |
| Packing.PackedIntsInjective | utils.go:112-122 | in range the word determines both integers |
| Packing.OversizedLimitsCollide | utils.go:117-120 | out of range it does not: two different pairs with one word |
| Packing.PackPaymasterAndData | paymaster.go:71-84 | the buffer grown by appends is paymaster, two padded limits and data |
| Packing.EncodePaymasterData | paymaster.go:87-100 | two ABI words followed by the signature |
| Packing.PaymasterDataOfNumbers | paymaster.go:87-100 | the two numbers and the signature read from paymaster data determine its bytes |
| Packing.DataOffset | paymaster.go:71-84 | for all limits the data starts at byte 52 or later, and at 52 when they fit |
| Packing.PaymasterFieldsReadBack | paymaster.go:13-17 | cutting at 20, 36, 52, 84 and 116 gives back every field; bytes 20 to 52 are the packed limits |
| Packing.PaymasterAndDataInjective | paymaster.go:71-84 | in range the bytes determine paymaster, limits and data |
| Packing.PackUserOperationInjective | utils.go:126-141 | in range the packed operation determines every unpacked field it is made from, signature included |
| Hashing.UserOpPreimageLayout | utils.go:43-74 | the inner hash is Keccak-256 of 256 bytes, given field by field, integers as uint256 |
| Hashing.DomainPreimageLayout | utils.go:25-41 | the user operation hash is Keccak-256 of 96 bytes: inner hash, entry point, chain id |
| Hashing.PaymasterPreimageLayout | paymaster.go:34-62 | the paymaster hash is Keccak-256 of 384 bytes, given field by field, with bytes 20 to 52 of paymasterAndData as one word |
| Hashing.HashedUserOpBinding | utils.go:43-74 | same fields give the same inner hash; the same inner hash gives the same fields or one of four named collisions |
| Hashing.UserOpHashBinding | utils.go:25-74 | equal user operation hashes mean the same operation, entry point and chain, or one of five named collisions; and conversely |
| Hashing.SigningDigestBinding | sign.go:14-19 | the same through the message framing, with a sixth named pair |
| Hashing.SignatureFixesOperation | client.go:181-191 | one signed digest fixes every unpacked field the hash covers, the entry point and the chain id, up to named collisions |
| Hashing.PaymasterHashReadsHead | paymaster.go:30-55 | the paymaster hash depends on paymasterAndData only through its first 52 bytes and not on the signature |
| Hashing.PlaceholderStability | client.go:138-167 | the digest signed over the placeholder is the paymaster hash of the operation with any other data and signature, for all limits |
| Hashing.PaymasterHashBinding | paymaster.go:24-68 | equal paymaster hashes mean the same fields, first 52 bytes, chain and window, or one of three named collisions |
| Hashing.PaymasterDigestBinding | client.go:145-159 | the same for the digest the verifying signer signs, through the message framing, with one more named pair |
| Hashing.PaymasterSignatureFixesOperation | paymaster.go:24-68 | in range, one digest signed by the verifying signer fixes sender, nonce, initCode, callData, every gas field, paymaster, chain and validity window, up to named collisions |
| Hashing.HashDomainsAreSeparate | paymaster.go:34-67 | equal signed digests of a paymaster hash and a user operation hash are one of two named collisions, so neither signature stands in for the other |
| Hashing.DigestsAreFramed | sign.go:14-19 | both signed digests are Keccak-256 of 28 literal bytes followed by the hash |
| Hashing.InnerHashIsNotUserOpHash | client.go:228-234 | a hash reported by HandleOps equal to one returned by FillAndSign is an explicit collision |
| JsonBody.ToBody | types.go:84-132 | the map from strings to strings that the conditional entries build is the body whose entries `JsonBody.BodyEntries` gives |
| JsonBody.BodyEntries | types.go:84-132 | each field is found under its literal key exactly when it is set, nothing is found for a nil number, empty data or zero address, and the body has no other keys |
| JsonBody.BodyAgreesWithPackedIff | types.go:84-132 | for every operation with its numbers set: rebuilding from the body by the literal ERC-4337 keys gives the packed operation if and only if sender and paymaster are set, limits fit in 16 bytes, nonce and preVerificationGas are uint256, there is no factory data without a factory, and initCode is factory followed by factory data (or empty without a factory) |
| JsonBody.RebuiltIsAssembled | types.go:84-132 | what a reader finds in the body, field by field; negative numbers, numbers too wide for their field, and factory or paymaster data without its address are refused |
| JsonBody.StrayFieldsPrinted | types.go:84-132 | when the body holds factory or paymaster fields without the address they belong to |
| JsonBody.NumberReadsBack | types.go:90 | a printed number is a well-formed JSON-RPC quantity that reads back, exactly when it is not negative |
| JsonBody.DataReadsBack | types.go:93 | printed data reads back, empty data through its absence |
| JsonBody.NameInjective | types.go:87-129 | the keys of the body are pairwise different strings |
| UserOps.DefaultUserOp | types.go:45-58 | the given sender, call data and salt, each gas field at its documented default, everything else empty; all limits in range |
| UserOps.UserOperation.constructor | types.go:62-80 | an operation object holding the given field values |
| Text.HexToBigIntOfPrinted | utils.go:78-84 | for all n, reading the printed quantity gives n for an even digit count and n / 16 for an odd one |
| Text.HexToBigIntIsInverseIff | utils.go:78-84 | reading a printed quantity returns it if and only if it is zero or has an even digit count |
| Text.HexToBigIntOfQuantity | utils.go:78-84 | for every well-formed quantity, upper-case digits included: exact for even length, a sixteenth, rounded down, for odd length |
| Text.HexToBigIntIsExactIff | bundler.go:61-78 | a quantity from a bundler is read exactly if and only if its length is even or it is 0x0 |
| Text.HexToBigIntOfAnyString | utils.go:78-84 | for every string, prefixed or not: the number of the longest run of digit pairs at its start |
| Text.HexToBigIntLosesTheDefaultGasLimit | types.go:16 | the default verification gas limit 200000 reads back as 12500 |
| Text.HexToBigIntOfNegative | types.go:90 | a printed negative number reads as zero |
| Text.HexToBigIntOfData | utils.go:78-84 | on hex data the reading is exact |
| Text.HexRoundTrip | types.go:93 | hex encoding of bytes is inverted by the lenient decoder |
| Text.HexEncodeAt | types.go:93 | the i-th character is the lower-case digit of the i-th nibble |
| Text.NatTextAt | types.go:90 | numbers print in lower case |
| Text.IntTextInjective | client.go:87 | printing integers of any size and sign loses nothing |
| Text.DecimalText | client.go:87 | a minus sign if it is due, then decimal digits without a leading zero that stand for the absolute value |
| Signing.SignMessage | sign.go:14-25 | succeeds exactly when the key signs Keccak-256 of the framed message; the result is that raw signature with 27 added to byte 64, in place |
| Signing.SignedMessage | sign.go:14-25 | 65 bytes ending in 27 or 28: the raw signature of Keccak-256 of the framed message with 27 added to byte 64; None exactly when the key does not sign that digest |
| Signing.SignedMessageIff | sign.go:14-25 | exactly one byte string is the answer: the shifted raw signature of the framed digest |
| Signing.FrameLayout | sign.go:11-16 | 26 literal prefix bytes, the decimal length and the message, for every message |
| Signing.FrameInjective | sign.go:15-16 | prefix, decimal length and message are unambiguous for all messages although nothing separates them |
| Signing.FrameOfHash | sign.go:11-16 | for a 32-byte hash the framing is 28 literal bytes, the version 0x45 prefix with length 32, and the hash |
| Signing.AddressHexReadsBack | types.go:87 | the checksummed address text has 42 characters and reads back whatever its casing |
| Signing.AddressHexIsChecksummed | types.go:87 | each digit of the address is upper case exactly when the nibble of Keccak-256 of the 40 lower-case digits is 8 or more |
| Rotation.RoundRobinSignerProvider.constructor | rotator.go:28-33 | holds the given signers and starts at position zero; valid below 2^32 signers |
| Rotation.RoundRobinSignerProvider.Next | rotator.go:35-44 | returns the signer at the old index and advances; nil exactly when there are none |
| Rotation.RoundRobinSignerProvider.Add | rotator.go:46-52 | appends, keeping the index, for lists of any length; keeps the invariant below 2^32 signers |
| Rotation.RoundRobinSignerProvider.Count | rotator.go:54-59 | the number of signers |
| Rotation.Following | rotator.go:41-42 | the uint32 update goes back to zero at the end of the list and nowhere else |
| Rotation.ExactCount | rotator.go:35-52 | in every run from a fresh provider position i was returned once per sweep completed since it was added, plus one if the current sweep has passed it |
| Rotation.Fairness | rotator_test.go:158-185 | earlier positions never trail later ones; positions there from the start differ by at most one |
| Rotation.CountsAddUp | rotator.go:35-44 | the counts of all positions add up to the non-nil results |
| Rotation.EveryNextIsServed | rotator.go:38-43 | with a signer at the start no call returns nil |
| Rotation.BoundedWaiting | rotator.go:35-52 | from any valid state with n signers, a window with a additions and at least n + a calls of Next, in any order, returns every signer that was there |
| Rotation.WindowIsTight | rotator.go:35-52 | one call less can miss a signer, for every list of two or more and every number of additions |
| Rotation.SignersOnlyGrow | rotator.go:46-52 | along a run the list only grows |
| Rotation.RunOfConcat | rotator.go:35-52 | a run can be split anywhere: the second part starts where the first ended, and counts add up |
| Interleaving.RunsAreSafe | rotator.go:35-59 | for every schedule of any number of threads that stays below 2^32 signers: no division by zero, no out-of-range read, and the invariant at the end |
| Interleaving.ExecKeepsInv | rotator.go:35-59 | every single step of every thread keeps the invariant |
| Interleaving.IndexStaysInRange | rotator.go:41-43 | between any two steps the index is below max(1, number of signers) |
| Interleaving.CallsAreSequential | rotator.go:35-59 | every returned call took effect at one place of a sequential history, within its own duration, with the answer that history gives it, Count the number of signers at that place; and every place of that history belongs to exactly one call |
| Interleaving.HistoryHasOnlyCalls | rotator.go:35-59 | under every schedule each place of the history is that of exactly one call, returned or still in progress |
| Interleaving.SequentialOrderKeepsRealTime | rotator.go:35-59 | a call that returned before another began, or that the same thread made earlier, comes first in that history |
| Interleaving.CountThenNext | client.go:212-217 | a thread whose Count was not zero gets a signer from its later Next, whatever other threads do |
| Interleaving.SomeoneCanMove | rotator.go:35-59 | no deadlock, with a lock that prefers writers: while a call is in progress some thread's next step succeeds |
| Delivery.IdleHistoryIsTheReturnedCalls | rotator.go:35-59 | when no call is in progress the history has as many places as calls returned |
| Delivery.ExactDelivery | rotator_test.go:105-156 | under every schedule, with distinct signers: the calls that were given the signer at position i, plus the at most one about to be, number the sweeps completed since it was added plus one if the current sweep passed it; none is pending when all threads are idle |
| Delivery.AdditionsAreKept | rotator_test.go:105-156 | under every schedule the list has grown by the additions that returned, plus those in progress; with a signer at the start no call of Next is answered with nil |
| Delivery.AtMostOneTaking | rotator.go:36-43 | at most one call at a time has taken a position and not returned |
| Delivery.FairDelivery | rotator_test.go:158-185 | under every schedule, in answers: earlier signers are never behind later ones, original ones differ by at most one; exact when idle, otherwise up to the call in progress |
| Delivery.BoundedDelivery | rotator.go:35-59 | between two moments of any schedule with n signers at the first, a returned calls of Add and n + a returned calls of Next, plus those in progress at either end, hand out every signer that was there |
| Accounts.LruCache.constructor | cache.go:24-32 | an empty cache with a positive bound |
| Accounts.LruCache.Get | cache.go:35-38 | the stored value if there is one |
| Accounts.LruCache.Set | cache.go:41-44 | stores the value, pushing out one other entry exactly when the key is new and the cache full, and says so; the bound holds |
| Accounts.StoringLosesAtMostOne | cache.go:41-44 | storing keeps every other entry but at most one, none while there is room or when the key was there |
| Accounts.KeyLayout | client.go:87 | the key is the 42 characters of the address, a dash, and the salt in decimal with its sign |
| Accounts.KeyInjective | client.go:87 | the key determines owner and salt, for all addresses and all integers |
| Accounts.LookupIsExact | client.go:87-96 | one lookup on contents that agree with the factory is exact and keeps agreement and bound; a hit answers without a query and changes nothing, and what was answered is found in the cache afterwards |
| Accounts.CachedLookupsAreExact | client.go:83-97 | in every run from an empty cache, under every choice of evictions: successful answers are the factory's, failed lookups store nothing, contents agree with the factory and stay bounded |
| Accounts.OverlappingLookupsAreExact | client.go:83-97 | however the Get, query and Set steps of any number of threads overlap, and under every choice of evictions: every answer is the factory's, contents agree with the factory, hold only what some lookup answered, and stay bounded |
| Accounts.StepKeepsInv | client.go:83-97 | each single step keeps exact answers, agreement and bound |

## Left out

- Client.Client.HandleOps: building the transaction options and the entry point call are one parameter that says which of them fails or what transaction hash comes back; the contents of the transaction are not modelled. `HandleAtomicOps` is the same code around another contract call.
- Client.Client.GetAccount: one whole lookup on a cache that holds addresses only, so the type assertion on values of other types is not modelled; overlapping lookups are `Accounts.OverlappingLookupsAreExact`.
- Accounts.LruCache.Get: the recency update of the inner cache is not modelled, because nothing depends on it once eviction is left open.
- Accounts.LruCache.Set: which entry is pushed out is left open; any other one may be, which covers least recently used.
- Packing.PackUserOperationInjective: stated for the six limits in [0, 2^128); outside it fails, as `OversizedLimitsCollide` shows.
- Rotation.RoundRobinSignerProvider.Next: stated below 2^32 signers, where the uint32 conversion of the length is exact. `Interleaving` models the division by zero at 2^32.
- `PackUserOperation` and the hash functions: a nil nonce or preVerificationGas, on which hashing panics, is excluded by precondition; `FillAndSign` requires just the numbers it dereferences on the path it takes.
- `NewClient`, `Prefund`, `DeployAccount`, `GetAccountBalance`, `PackTransferData`, `PackBatchTransferData` and the accessors: thin calls into libraries.
- bundler.go apart from the use of `ToBody` and `HexToBigInt`: JSON-RPC transport, receipts, the polling loop and error decoding.
- The contract bindings and the contracts themselves; of the ABI only field order and widths are used.
- Keccak-256, ECDSA and nil private keys.
- Delivery.FairDelivery: stated for signers that are pairwise different, as are `ExactDelivery` and `BoundedDelivery`, because equal keys cannot be told apart in answers; the counts by position in `Rotation` need no such condition.
- Go's memory model: the steps of different threads interleave on one memory. A reader that waits for the lock retries until no writer holds it or has announced itself; the order in which waiting threads are let in is left open.
