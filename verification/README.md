# Verified model of the Internxt transfer core

This project models the parts of the Internxt core library that must not go wrong silently, and
proves what they promise:

- **The streaming transfer engine** (`src/transfer.rs` with the CTR state of `src/crypto.rs`). One
  continuous AES-256-CTR stream is encrypted chunk by chunk, cut into 15 MB parts, uploaded by
  concurrent PUT tasks under a semaphore, joined in order and finished with an ordered part list
  and a hash. A download seeks the stream to a byte window and fetches only what overlaps it, or,
  without shard sizes, decrypts from byte 0 and drops the front.
- **Folder create-or-find** (`src/transfer.rs`): bounded retries against a server that may apply a
  create and still report an error, and a paged search.
- **Session refresh** (`src/auth.rs`): the half-life rule and the two-token refresh.
- **Codecs** (`src/crypto.rs`, `src/api.rs`, `src/sso.rs`): the workspace-key framing, the two
  stored forms of a Kyber key, and the two percent-encoders.

## How it is built

| module | what it holds |
|---|---|
| `Bytes`, `Slicing`, `StableSort` | byte strings, how a stream is cut into parts, `sort_by_key` |
| `CtrMode` | the keystream, its laws, and the stateful `Ctr` class |
| `Multipart`, `MultipartTheorems` | the multipart upload as a transition system, its invariant, and what every run guarantees |
| `Upload` | the imperative `Uploader`, which refines the transition system, the single upload, and the entry point |
| `Download` | the network, the writer, the fast and the slow path, and the entry point |
| `RoundTrip` | fast path against slow path, and upload followed by download |
| `Folders`, `Session` | create-or-find; token refresh |
| `Hex`, `Base64`, `Percent`, `FileKey`, `WorkspaceKey` | the codecs and key derivation |

The multipart upload is a transition system `(Init, Enabled, Apply)` that interleaves the steps of
the dispatcher with those of the PUT tasks. Its invariant holds in every reachable state
(`Multipart.RunKeepsInv`), and the theorems are read off it. The class `Upload.Uploader` has the
local variables of the source as its fields; its `Valid()` says that their values are a reachable
state of the system, so each of its methods refines a sequence of steps, with any number of PUTs
ending in between. Every choice of the reader, the network, the storage and the scheduler is
nondeterministic, so a contract covers every chunking, every interleaving and every failure.
`PART_SIZE`, `READ_CHUNK` and the concurrency are parameters of the protocol; only the entry point
fixes their values. Nothing relates the part size to the chunk size.

What may fail is granted from outside: `Upload.Faults` says whether the reader, a PUT or the finish
request may fail, and a network or a writer of `Download` is reliable or not. A contract that blames
an error on one of them therefore also says that without it the operation succeeds.

`RoundTrip.StoreThenFetch` ties both directions together: whatever the chunking, the upload path,
the interleaving, the shard layout and the order in which it is listed, a successful upload and
download of a window returns exactly that window of the input, and where nothing may fail and the
server grants the slots asked for, both do succeed.

Parameters of the model, in place of code that is not here: the block cipher
(`CtrMode.BlockCipher`), the hashes and the mnemonic seed (`FileKey.Primitives`), OpenPGP, Kyber,
blake3 output and UTF-8 validity (`WorkspaceKey.Library`), token parsing, mnemonic checking, the
clock and the server's answers (`Session.Env`), and the random 32-byte file index. The theorems
hold for every choice of them; a law that needs one of them to invert another has that as a
`requires`.

## Where code and documentation differ

- `create_folder_with_retry` documents `Ok(None)` after exhausted retries; the code returns the
  last error (`src/transfer.rs:441`), and the `Ok(None)` after its loop is never reached.
- `refresh_credentials` documents a refresh within two days of expiry; the code refreshes at half
  the lifetime, or six hours before the end when there is no `iat`.
- The comment on the abort loop speaks of stopping the rest of the parts. That holds for a failed
  join; a read error or a missing url returns with PUTs still running. `MultipartTheorems.LeavesPutIff`
  has the exact conditions: the first can happen if and only if there is a url and a full part of
  input, the second if and only if the input also exceeds the urls.
- The single upload announces `size` as the content length of its PUT and never compares it with
  the input. An input longer than announced is stored cut off, if the PUT succeeds at all
  (`Upload.SingleIsWhole`).

`decrypt_workspace_key` tells the two modes apart by the text in front of the first `$`. An
OpenPGP-only blob would be misread for the one message "HybridMode" (`WorkspaceKey.EccOnlyRoundTrip`);
an armored message never has that text, so every one of those comes back
(`WorkspaceKey.ArmoredRoundTrip`).

## Model

| member | source | states |
|---|---|---|
| CtrMode.Ctr.constructor | src/crypto.rs:433-435 | a new state stands at byte 0 of the keystream of its key and iv |
| CtrMode.Ctr.Seek | src/crypto.rs:439-444 | counter and in-block offset become those of byte `p`, block-aligned or not |
| CtrMode.Ctr.Apply | src/crypto.rs:436-438 | each byte of the buffer is combined by exclusive-or, in place, with its byte of the cipher blocks that count on from the nonce modulo 2^128, and the position moves by the length |
| CtrMode.Aes256CtrApply | src/crypto.rs:287-292 | the one-shot form is one pass from position 0, by the same exclusive-or with the cipher blocks of the nonce, the nonce plus one, and so on |
| CtrMode.CryptXorsBlocks | src/crypto.rs:429-438 | encrypting is that exclusive-or byte for byte, and nothing else is |
| CtrMode.CryptByNonce | src/crypto.rs:439-444 | the same for the nonce given by its 16 base-256 digits |
| CtrMode.BigEndianSpelled | src/crypto.rs:439-444 | the counter starts at the number whose base-256 digits are the bytes of the iv, the highest first |
| CtrMode.SpelledOnce | src/crypto.rs:439-444 | and there is only one such number |
| CtrMode.SeekIsSlice | src/crypto.rs:403-426 | seeking and applying gives the slice of one continuous pass, for every position |
| CtrMode.AnySplitIsOneStream | src/transfer.rs:201-209 | applying a stream piece by piece equals applying it whole, for every split |
| CtrMode.CryptTwice | src/crypto.rs:287-292 | applying twice from the same position is the identity |
| CtrMode.DecryptWindow | src/crypto.rs:403-426 | decrypting a window of a ciphertext after a seek gives that window of the plaintext |
| CtrMode.NextCounter | src/crypto.rs:439-444 | the counter of the next block is one more, modulo 2^128 |
| CtrMode.KeystreamWraps | src/crypto.rs:439-444 | the keystream has period 2^128 blocks |
| Slicing.SlicedIsPartsOf | src/transfer.rs:211-221 | full parts followed by a shorter non-empty one are the only way to slice a stream |
| Slicing.PartsOfSliced | src/transfer.rs:211-221 | slicing yields full parts but for a non-empty last one, and they join to the stream |
| Slicing.PartCount | src/transfer.rs:180 | n bytes have ceil(n / size) parts |
| StableSort.SortSorts | src/transfer.rs:316-317 | the sort is ascending and keeps the elements |
| StableSort.SortRestores | src/transfer.rs:316-317 | shards with distinct indices are restored from any listed order |
| StableSort.SortOfAscending | src/transfer.rs:251 | parts collected in join order are left as they are |
| StableSort.SortIsStable | src/transfer.rs:316-317 | elements of equal key keep their order |
| Hex.EncodeAt | src/transfer.rs:154-158 | hexadecimal text is two lower-case digits for each byte, the high one first |
| Hex.DecodeIff | src/transfer.rs:312 | text decodes to some bytes if and only if it is their encoding but for the case of the letters |
| FileKey.KeyDerivation | src/crypto.rs:265-285 | the key from the answers of the hash: seed and bucket bytes, then half of that and the index, then half of that |
| FileKey.KeyErrors | src/crypto.rs:266-268 | no key exactly for a mnemonic without a seed, and else for a bucket that is not hexadecimal text |
| FileKey.IndexMatters | src/crypto.rs:276-280 | some hash gives any two distinct indices distinct keys |
| FileKey.BucketMatters | src/crypto.rs:270-274 | and any two distinct buckets |
| FileKey.ShardHashIs | src/transfer.rs:154-155 | the hash is the hexadecimal text of the ripemd160 answer to the sha256 answer |
| Multipart.StepKeepsInv | src/transfer.rs:192-286 | every step of the dispatcher and of every PUT keeps the whole invariant: stream, slicing, permits, storage, join, abort and finish |
| Multipart.RunKeepsInv | src/transfer.rs:192-286 | the invariant holds in every state of every run |
| MultipartTheorems.FinishIsComplete | src/transfer.rs:192-286 | a finish request is sent only after every PUT succeeded; its parts are 1..k ascending with the ETags of their own bodies; the bodies are the slices of the encryption of the whole input, which is also what was hashed and reported |
| MultipartTheorems.FinishAtMostOnce | src/transfer.rs:256-259 | at most one finish request is ever sent |
| MultipartTheorems.NoFinishOnError | src/transfer.rs:239-259 | a finish request was sent exactly when the upload returned from sending it |
| MultipartTheorems.SingleAndMultipartAgree | src/transfer.rs:92-96 | a finished multipart upload stored and hashed the bytes that a streamed single PUT sends, under any chunking |
| MultipartTheorems.MemoryBounded | src/transfer.rs:195-221 | free permits and live PUTs add up to the concurrency; ciphertext held is below (permits + 1) parts and one chunk, whatever the file size |
| MultipartTheorems.NoDeadlock | src/transfer.rs:201-286 | some step is enabled exactly until the upload has returned and no PUT is live |
| MultipartTheorems.StepDecreases | src/transfer.rs:201-286 | every step decreases (unread, undispatched, PUTs pending, phase, unjoined) |
| MultipartTheorems.NoInfiniteRun | src/transfer.rs:201-286 | no schedule runs for ever |
| MultipartTheorems.PartsAreSlices | src/transfer.rs:197-221 | dispatched parts slice a front of the ciphertext; at the loop head they are all full and the buffer is shorter than a part |
| MultipartTheorems.EveryUrlFound | src/transfer.rs:271-274 | no url is missing when the input fits into the urls returned |
| MultipartTheorems.NoUrlMeansOverflow | src/transfer.rs:271-274 | a missing url means the input exceeds the urls, and no finish was sent |
| MultipartTheorems.FinishNeedsSlots | src/transfer.rs:180-187 | a finished upload dispatched ceil(n / part size) parts and fits into its urls |
| MultipartTheorems.SlotsMatchSize | src/transfer.rs:180 | below 2^32 parts, the slots asked for are the least number that holds the announced size |
| MultipartTheorems.SlotsWrapAround | src/transfer.rs:180 | from 2^32 parts on, the number of slots asked for is the part count modulo 2^32 |
| MultipartTheorems.CanFinishIffFits | src/transfer.rs:180-274 | some schedule finishes the upload if and only if the input fits into the urls returned |
| MultipartTheorems.FinishFrom | src/transfer.rs:201-259 | from every state in which nothing failed, an input that fits can still be driven to a successful finish |
| MultipartTheorems.JoinFailure | src/transfer.rs:223-250 | earlier handles were joined as successes, the failed one is first in join order, every later one is cancelled or over, no finish is sent |
| MultipartTheorems.ProgressIsUploaded | src/transfer.rs:279-283 | progress is at every moment the bytes of the PUTs that succeeded, and never exceeds the input |
| MultipartTheorems.LeavesPutIff | src/transfer.rs:202-250 | an upload can return with an uncancelled PUT if and only if it has a url and one full part of input; by a read error under the same condition, by a missing url if and only if the input also exceeds the urls, by no other return |
| MultipartTheorems.PutsLeftRunning | src/transfer.rs:202-220 | the necessary half, for any such state |
| MultipartTheorems.ReadErrorLeavesPut | src/transfer.rs:202-203 | the sufficient half for a read error: a run for every configuration that meets the condition |
| MultipartTheorems.MissingUrlLeavesPut | src/transfer.rs:214-220 | the sufficient half for a missing url |
| Upload.Uploader.constructor | src/transfer.rs:192-199 | the locals start in the initial state of the protocol |
| Upload.Uploader.RecordPut | src/transfer.rs:279-284 | a PUT that ends returns its permit; only a successful one counts as progress; the storage may keep a body whose reply was lost |
| Upload.Uploader.ReadSome | src/transfer.rs:202-205 | a read yields any chunk up to the buffer size, the end exactly behind the last byte, or an error |
| Upload.Uploader.EncryptNext | src/transfer.rs:206-207 | the chunk is encrypted at the keystream position of its place in the input |
| Upload.Uploader.AppendChunk | src/transfer.rs:208-209 | the hasher and the part buffer both absorb the encrypted chunk |
| Upload.Uploader.CutPart | src/transfer.rs:211-213 | a full part leaves the front of the buffer and the rest stays |
| Upload.Uploader.DispatchPart | src/transfer.rs:262-286 | succeeds exactly when the part number has a url, waits for a permit, and adds one task with that number and body at the end of the handles |
| Upload.Uploader.ReadAndDispatch | src/transfer.rs:201-221 | on success every byte is dispatched; otherwise the state is that of a missing url, or of a read error that the reader was free to make |
| Upload.Uploader.JoinNext | src/transfer.rs:226-236 | a successful handle adds its part reference; a failed one starts the abort behind it |
| Upload.Uploader.JoinAll | src/transfer.rs:223-238 | joins in order, true exactly when every handle was joined; false only if PUTs may fail |
| Upload.Uploader.AbortRest | src/transfer.rs:239-250 | ends in the state of a join failure, every later handle aborted |
| Upload.Uploader.SendFinish | src/transfer.rs:251-259 | sends one finish request, with the hash of what was absorbed and the sorted parts |
| Upload.Uploader.Run | src/transfer.rs:192-260 | always returns, in a reachable final state of the protocol with the outcome it reports, and every failure has its cause |
| Upload.Uploader.Transfer | src/transfer.rs:192-260 | success means that the storage assembled the encryption of all bytes read, under its hash, with all progress reported |
| Upload.OutcomeOf | src/transfer.rs:239-260 | what each outcome of any run says about input, storage, hash and progress |
| Upload.SingleSlotIs | src/transfer.rs:113-119 | the errors of a reply without a url, in their order, and else the url of the first slot |
| Upload.MultipartSlotsIs | src/transfer.rs:181-190 | the errors of a reply without part urls or an upload id, in their order, and else the number of urls of the first slot |
| Upload.UploadMultipart | src/transfer.rs:167-260 | the error of the slot reply comes first; success gives the receipt of the input and full progress; input beyond the slots fails; any failure is a fault of the reader, a PUT or the finish request, or such input; a full grant suffices for an honest size |
| Upload.StreamBody | src/transfer.rs:137-150 | under every chunking the bytes hashed are the encryption of those taken, which progress counts, and the body sent is its front of at most the announced length |
| Upload.UploadSingle | src/transfer.rs:100-161 | for input of at most the announced size the same receipt and progress as the multipart upload, for longer input the announced front of it; a failure is a fault outside or a wrong size |
| Upload.SingleIsWhole | src/transfer.rs:152-158 | a single PUT stores the whole object if and only if the announced size holds it, and then its hash covers it too |
| Upload.ContentIs | src/transfer.rs:87-96 | the object stored is the input combined with the cipher blocks that count on from the first half of the index, under the derived key |
| Upload.EntryBounds | src/transfer.rs:27-33 | at the fixed parameters less than 174063616 bytes are held, and slots do not wrap around for exactly the sizes up to (2^32 - 1) * 15728640 |
| Upload.UploadUnder | src/transfer.rs:92-96 | what an upload promises under a given key, above and below the threshold |
| Upload.UploadStreamToNetwork | src/transfer.rs:76-97 | key errors come first; the key is the derived one and the iv the first half of the index; above the threshold the multipart reply counts, else the single one; either path gives the same receipt, the single one for input of at most the announced size; failures have their cause |
| Download.WindowOf | src/transfer.rs:321-329 | the window is `[min(start, size), min(start + len, size))`, or all of the file: neither the clamping first nor the saturating sum shows |
| Download.InOrderIs | src/transfer.rs:316-317 | shards are taken in the order of their indices, those of equal index in the order listed |
| Download.OpenFileIs | src/transfer.rs:307-314 | a file of version 1 or of no version is refused, then a bad index, then a failed key derivation; else key and iv are the derived ones |
| Download.OpensAtMostOnce | src/transfer.rs:312-314 | no other key and iv open the file |
| Download.LoneShardRequest | src/transfer.rs:342-368 | a single shard is requested whole for the whole file, else as the window, whatever size it states |
| Download.KnownSizesRequests | src/transfer.rs:344-368 | of several shards with sizes exactly the overlaps with the window are requested, whole where a shard lies inside |
| Download.UnknownSizesRequests | src/transfer.rs:376-382 | if a size is missing among several shards, all are requested whole, in order |
| Download.PlanIsExact | src/transfer.rs:345-368 | the requests are contiguous, disjoint, within their shards, cover exactly the window, and fetch exactly its number of bytes |
| Download.PlanInShards | src/transfer.rs:358-361 | every request satisfies `local_start <= local_end_incl < ssize` |
| Download.PlanCoversFrom | src/transfer.rs:345-362 | from any shard on, the requests cover the rest of the window, even if the sizes end before it |
| Download.Network.Deliver | src/transfer.rs:369-371 | a body arrives in any chunks, complete or cut short |
| Download.Network.GetRange | src/network.rs:277-304 | a range GET yields exactly the inclusive range or an error |
| Download.Writer.WriteAll | src/transfer.rs:373 | a failed write has written a front part at most |
| Download.Drain | src/transfer.rs:369-374 | a body is decrypted from the current position and appended; an error leaves a front part of it |
| Download.FetchOverlap | src/transfer.rs:358-374 | requests the overlap of the shard with the window, whole or as a range, and decrypts the answer behind what was written |
| Download.FastStep | src/transfer.rs:347-375 | one iteration issues exactly its part of the plan and appends the decrypted answer |
| Download.FastLoop | src/transfer.rs:346-375 | the requests are the plan, in order, and what is written is their answers decrypted as one stream, whatever the sizes |
| Download.FastPath | src/transfer.rs:344-375 | the same from the seek on; it fails only by the network, the writer or a range behind its body, and on failure the output is a front part |
| Download.DeliveredFrom | src/transfer.rs:345-375 | from any shard on, the answers are the rest of the window of the content |
| Download.FastIsWindow | src/transfer.rs:335-375 | with true sizes of the shards that start below the end, the fast path writes the window of the plaintext and no range is refused |
| Download.OutputIsWindow | src/transfer.rs:321-404 | with true or missing sizes a download writes the window; it is short exactly when the stored content ends before the window does |
| Download.SkipStep | src/transfer.rs:387-398 | the bytes kept of a chunk, when the front still to skip and the back not wanted are cut off, extend the window of what was decrypted before to that of what is decrypted now |
| Download.SkipAndTake | src/transfer.rs:385-398 | after each chunk the output is the window of what was decrypted so far |
| Download.SkipShard | src/transfer.rs:382-402 | the same over one shard, left early exactly when nothing remains |
| Download.SlowPath | src/transfer.rs:376-404 | decrypt-and-skip writes exactly the window, whatever the shard sizes, and requests no shard behind the one that reaches the end |
| Download.DownloadFileToWriter | src/transfer.rs:296-407 | each error before the first request is tied to the fields that cause it, version 1 or none first, and writes and requests nothing; for all sizes the output is that of the path taken, on failure a front part of it; for true or missing sizes it is the window; with known sizes nothing outside the plan is requested; a started transfer fails only where the network or the writer may |
| RoundTrip.FastRefinesSlow | src/transfer.rs:335-404 | for positive sizes that are true below the end, what the fast path writes is what decrypt-from-zero-and-skip gives, which is what the slow path writes |
| RoundTrip.OpensUploaded | src/transfer.rs:307-314 | the index sent at upload opens the file with the same key and iv |
| RoundTrip.WindowOfUploaded | src/transfer.rs:316-333 | any listing of any split of an uploaded object means the window of the plaintext |
| RoundTrip.UploadThenDownload | src/transfer.rs:76-407 | a receipt and a listing of its object give back the key, the iv and every window of the plaintext |
| RoundTrip.TrueLengthsAreHonest | src/transfer.rs:342-348 | a listing with true lengths, or with one left out, meets everything that the download requires, the 64-bit sums included |
| RoundTrip.StoreThenFetch | src/transfer.rs:76-407 | end to end: after a successful upload, a download writes `input[min(s,n)..min(s+len,n)]`, and a failed one a front part of it; without faults and with the slots granted both succeed |
| Folders.SearchPage | src/transfer.rs:470-482 | one page is searched for its first live, exactly named entry with a uuid |
| Folders.FirstMatchIff | src/transfer.rs:470-482 | the search finds the uuid of the first entry that is live or without a status, has exactly that name and a uuid, and nothing exactly when there is none |
| Folders.ConflictIff | src/transfer.rs:434 | an error is a conflict exactly when its text says "already exists" somewhere, in any case |
| Folders.FirstMatchPlus | src/transfer.rs:459-488 | the first match of two pages is that of the first, else that of the second |
| Folders.FindExistingFolder | src/transfer.rs:454-488 | the paged search is the linear search, in at most n/50 + 1 requests and exactly so many on a miss; it fails only if the API fails to answer |
| Folders.FirstMatchIsTheFolder | src/transfer.rs:449-452 | with unique live names the search finds the one live folder of that name, and nothing exactly when there is none |
| Folders.DriveApi.GetSubfolders | src/api.rs:1352-1373 | a page holds the entries from `offset` on, 50 at most |
| Folders.DriveApi.CreateFolder | src/transfer.rs:428-436 | a reply with a uuid names the live folder; a conflict means that one exists; a lost reply may hide a create |
| Folders.CreateFolderWithRetry | src/transfer.rs:421-447 | at most three creates with in-bounds backoff; a uuid is that of the one live folder of the name; `Ok(None)` only from a lookup miss; a lookup follows exactly a conflict and fails only if the API does; a create error comes exactly after the third refusal |
| Session.CallFinds | src/auth.rs:189-199 | when a call on an issued token finds it expired, and when it refreshes it |
| Session.DueIs | src/auth.rs:189-210 | when a token has expired, when it is due, and when a workspace token is, in terms of its claims; a lifetime that overflows 64 bits is never half spent |
| Session.WrapIs | src/auth.rs:190 | subtraction is two's complement: in range, and off by a multiple of 2^64 |
| Session.SafeFrom | src/auth.rs:220-252 | calls within the safe gap never find an expired token |
| Session.QuietThenLate | src/auth.rs:189-199 | for any larger gap, calls that leave the token alone and a last one that finds it expired |
| Session.LapseBoundIsTight | src/auth.rs:183-252 | a session never lapses if and only if the gap is at most half the lifetime, or, without `iat`, six hours and less than the lifetime |
| Session.RefreshCredentials | src/auth.rs:220-299 | when each error arises; identity and stable workspace fields are kept; not changed means equal; both tokens were fetched in this call or are unexpired; a refresh that is due and answered is stored; the warnings are exactly those of the due refreshes that failed; `changed` exactly if a due refresh was answered; the whole result from claims and answers |
| Percent.EncodePath | src/api.rs:81-92 | the byte loop yields the encoding that keeps `/` |
| Percent.EncodeSegment | src/api.rs:67-74 | the replace yields the encoding that keeps nothing, the same text as the other encoder |
| Percent.UrlEncode | src/sso.rs:77-88 | the byte loop yields the encoding that keeps nothing |
| Percent.ReplacedPath | src/api.rs:72-74 | replacing `/` in an encoded path is encoding it as a segment |
| Percent.RoundTrip | src/api.rs:76-92 | decoding inverts both encoders; their output has only kept characters and upper-case triplets |
| Percent.EncodedIs | src/api.rs:81-92 | the text is, byte by byte, the byte itself if it is a letter, a digit, one of `-_.~` or a kept `/`, else `%` and its two upper-case digits |
| Percent.SegmentIsOneSegment | src/api.rs:67-74 | an encoded segment contains no `/` |
| Hex.RoundTrip | src/transfer.rs:258-312 | hexadecimal text of an index decodes to the index |
| Base64.RoundTrip | src/crypto.rs:139-151 | strict padded base64 decodes to what was encoded |
| Base64.DecodeIff | src/crypto.rs:142-151 | only the encoding of some bytes decodes to them |
| Base64.DigitIs | src/crypto.rs:139-151 | the alphabet is A to Z, a to z, 0 to 9, `+` and `/` |
| Base64.Group3Is | src/crypto.rs:139-151 | three bytes are the four 6-bit digits of their 24 bits |
| Base64.ShortGroupsAre | src/crypto.rs:139-151 | one or two bytes are padded with zero bits, and the text with `=` |
| Base64.EncodeAt | src/crypto.rs:139-151 | the text is that of its groups of three, and of the rest |
| Base64.NoDollar | src/crypto.rs:216-219 | no base64 field contains the separator `$` |
| WorkspaceKey.KyberKeyRoundTrip | src/crypto.rs:139-156 | every 1632-byte key is recovered from its once- and twice-encoded form |
| WorkspaceKey.KyberKeyIff | src/crypto.rs:139-156 | exactly the texts that are the base64, or twice the base64, of a 1632-byte key give that key |
| WorkspaceKey.HybridBlobSplits | src/crypto.rs:217-222 | a framed key splits into exactly its three fields |
| WorkspaceKey.UnmaskInvertsMask | src/crypto.rs:160-177 | the extended secret has the right length and the hex XOR masks invertibly |
| WorkspaceKey.HybridRoundTrip | src/crypto.rs:211-235 | every UTF-8 mnemonic framed in hybrid mode is recovered, with the Kyber key stored either way |
| WorkspaceKey.HybridOnly | src/crypto.rs:211-235 | a hybrid key that decrypts consists of the prefix, a Kyber ciphertext and an OpenPGP message, and the result is the masked bytes combined by exclusive-or with the extended secret |
| WorkspaceKey.HybridAll | src/crypto.rs:211-235 | and every key so made decrypts to that result |
| WorkspaceKey.HybridRefusals | src/crypto.rs:219-224 | a hybrid key without exactly two `$`, or without a Kyber key to open it, has its own error |
| WorkspaceKey.EccOnlyIff | src/crypto.rs:236-239 | any other key decrypts exactly to what OpenPGP makes of its one base64 message |
| WorkspaceKey.EccOnlyNeedsBase64 | src/crypto.rs:216-238 | nothing decrypts unless the OpenPGP key, and outside hybrid mode the blob, is base64 |
| WorkspaceKey.PrefixIsHybridMode | src/crypto.rs:219 | the prefix is the base64 of the text "HybridMode" |
| WorkspaceKey.HybridModeText | src/crypto.rs:219 | and that text is spelled so |
| WorkspaceKey.EccOnlyRoundTrip | src/crypto.rs:236-240 | an OpenPGP-only key is recovered if and only if its message is not the text "HybridMode" |
| WorkspaceKey.ArmoredRoundTrip | src/crypto.rs:236-240 | every OpenPGP-only key whose message is armored is recovered |

## Left out

- The insides of AES, SHA-256, SHA-512, RIPEMD-160, blake3, Kyber, OpenPGP and bip39: library code, here parameters.
- HTTP plumbing, headers and JSON in `src/network.rs` and `src/api.rs`: a request is a method with a nondeterministic answer. A PUT counts as a success only with an ETag.
- What the storage does with a finish request: `Multipart.Assemble` states the assumption that it joins the parts named, in ascending order, under the ETags it returned.
- The HTTP client of a single PUT: assumed to send no more than the announced length, to go on drawing on the body until it has that much or the body ends, and to answer input of another length with success or failure as it likes.
- The end of a PUT and the return of its permit are one step, and so are acquiring a permit and spawning; acquiring while all permits are taken is a wait in which PUTs end.
- A finished handle is a success or a failure: a panic in a PUT task counts as a failure, as both lead to the same branch.
- The part number is a natural number rather than a `u32`: it never exceeds the number of urls by more than one.
- `usize` has 64 bits, so the casts in the slow path keep their values. `Download.Fits64` bounds the sums of shard sizes that the source computes before it leaves its loop, which it adds without a check.
- Download.DownloadFileToWriter: with sizes that differ from the bodies the output is the planned answers decrypted as one stream, which need not be the window; the source never compares the two.
- An index shorter than 16 bytes panics in the source; the model returns `IndexTooShort`. Flushing the writer is not part of this model.
- Folders.CreateFolderWithRetry: which creates fail is left to the server; only listings have a notion of an API that always answers.
- Folders.FindExistingFolder: the listing does not change during one search; between requests of the create loop it may change at will.
- Lower-casing of error texts is that of ASCII letters; the text looked for has no others.
- Session.RefreshCredentials: parsing of token claims is a parameter, and the token and workspace answers are functions of the request. Subtractions wrap around at 64 bits as in a release build.
- `upload_file_to_network`: the stream upload with an opened file as its reader.
- `replace_file_or_recreate`, `totp_at`, text encryption in CBC and GCM, `src/vpn.rs`, `src/thumbnail.rs`, `src/config.rs`, `src/progress.rs`, `src/error.rs`, the DTOs of `src/models.rs` and the SSO callback: easy members or foreign code.
