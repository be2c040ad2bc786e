# Verified models of a Merkle trie, its storage, RLP and EVM metering

This project states and proves what a cut-down Ethereum node's core promises: the Merkle Patricia
trie and everything around it (node codec, hashing, proofs, iterators, reference-counted cache,
synchronisation), the RLP encoding it is stored in, the bitset compression, and the gas and jump
analysis of the virtual machine.

`dafny verify dfyconfig.toml` checks all of it.

## How it is built

* `HexKeys`, `Rlp`, `RlpEncoder`, `RlpValues`, `RlpStream`: the byte formats. The encoder collects
  list heads apart and merges them at the end; the stream decoder keeps a stack of open lists. Both
  are proved against the recursive definition of Appendix B of the Yellow Paper.
* `Trees`, `TrieRuns`, `FromScratch`: tries as plain trees. `Insert` and `Delete` are the algorithms,
  `Holds` says that a canonical tree holds exactly a map, and `Build` is the direct construction of
  Appendix D of the Yellow Paper.
* `Merkle`, `Nodes`, `Represent`, `Trie` (module `TrieOps`), `StoreLog`, `Hasher`, `MerkleTrie`: tries
  as the program has them, partly loaded, with cached hashes, dirty flags and cache generations. Every
  method carries the plain tree its nodes stand for as a ghost parameter. A storing pass returns the
  log of its insertions and references.
* `Proofs`, `Walks`, `Iterators`, `Difference`: Merkle proofs, the node iterator with seek, and the
  difference iterator, against the list of visits `Walk` of a tree.
* `RefGraph`, `Batches`, `CommitOrder`, `Database`: the node cache, its collection and its commit.
* `Retained`, `TrieStore`: what the node database never loses, over any run of operations, and the
  tries that are committed into it.
* `SyncState`, `SyncSteps`, `Sync`, `SyncRuns`, `SyncDepths`: the synchroniser as a state machine with
  one invariant over all its steps, what each step asks for, in which order and at which depth, and
  whole runs of it.
* `Bits`, `Bitset`, `JumpAnalysis`: bit-level code on 8-bit vectors.
* `EvmMemory`, `EvmGas`, `Evm`: 64-bit gas arithmetic with its wrap-around, and call frames whose
  code, stack and state are free choices, so that the contracts hold of all programs.

## Assumptions that are stated in the contracts

* Keccak256 is an unspecified function. Collision freedom is never assumed globally: `Known(blob)`
  says that a blob is one of a collision-free set, and contracts that need it ask for it of the
  blobs at hand. The empty root and the empty code hash are computed from Keccak, not literals.
* Stores are content addressed (`Honest`): every blob lies under its own hash.
* The cache graph and the synchronised graph are acyclic, given as a rank that references lower.
* In the synchroniser no hash is used both as raw entry and as trie node. A trie node may be requested
  with and without a callback; the first request decides (`SyncRuns.FirstDecides`), children are
  requested like their parent, and `SyncRuns.CallbackExact` gives the exact condition for the leaves of
  a registered trie to be shown.
* A stream reads from a reader that has ReadByte, delivers chunks of any size, and reports the end of
  the input in a read of its own or (`eager`) together with the last bytes; only the read that delivers
  those matters, so one flag stands for every such reader. A reader without ReadByte is buffered first
  (rlp/decode.go:850-855) and is not this reader itself.
* Byte strings are shorter than 2^64.

Where code and comments disagree the code is followed: the guard of the memory price admits sizes
whose price wraps (`EvmMemory.FeeExact`, `EvmMemory.GuardTooLoose`), a compact key is accepted
with any padding (`HexKeys.CompactExpand` gives the exact condition of the round trip), the bound of
codeSegment (core/vm/analysis.go:63) is off by one and lets through the one byte position at which it
panics (`JumpAnalysis.CodeSegment`; the analysis itself never asks for it), a reader with ReadByte that
reports the end with its last bytes makes decoding fail exactly on values that end with a bulk read
(`RlpStream.EagerExact`), a node with an empty key makes the decoder panic (`Nodes.EmptyKeyPanics`
says exactly when), a callback registered for a trie that is already pending without one is dropped
(`SyncRuns.LateCallback`), and so it is below a child that is (`SyncRuns.EarlyChild`), a request under a
parent that still waits for its data ends with that parent stored empty (`SyncRuns.DatalessParent`), a
deletion that needs the one child a branch has left and misses it reports the path of the branch instead
of that of the child (`TrieOps.SoleNode` says exactly when), and the hasher's leaf callback also gets an
empty value for every empty child of a full node, but not the value of the full node itself
(`StoreLog.LeavesShown`).

## Model

| member | source | states |
|---|---|---|
| HexKeys.KeybytesToHex | trie/encoding.go:66-75 | the loop computes Hex(key): two nibbles per byte and one terminator |
| HexKeys.HexToKeybytes | trie/encoding.go:79-89 | packs the digits, and Hex of the result is the input again for terminated keys |
| HexKeys.DecodeNibbles | trie/encoding.go:91-95 | fills the buffer from the given position with the packed nibbles and leaves the bytes before it alone |
| HexKeys.UnhexHex | trie/encoding.go:66-89 | hex keys decode to the bytes they came from |
| HexKeys.HexUnhex | trie/encoding.go:66-89 | every terminated key of even digit count is the hex form of its decoded bytes |
| HexKeys.HexToCompact | trie/encoding.go:37-52 | the buffer filled in place is the hex-prefix encoding of Appendix C of the Yellow Paper |
| HexKeys.ExpandCompact | trie/encoding.go:37-64 | compactToHex inverts hexToCompact on every valid hex key, odd or even, terminated or not |
| HexKeys.CompactExpand | trie/encoding.go:37-64 | hexToCompact inverts compactToHex exactly on well-formed compact keys (flag nibble below 4, zero padding), if and only if |
| HexKeys.PrefixLen | trie/encoding.go:98-109 | the loop finds the length of the longest common prefix |
| Rlp.CountValues | rlp/raw.go:74-84 | returns n exactly when the input is n pieces, one after the other, that each split off as one value with nothing left; fails with an error exactly when after some such pieces a non-empty rest fails to split with it |
| Rlp.CountMeans | rlp/raw.go:74-84 | the same of the count itself |
| Rlp.SplitErrors | rlp/raw.go:86-157 | which error splitting gives: end of input exactly when the bytes of the size are not all there, too large exactly when a canonical header announces more than follows, otherwise a size that is not canonical |
| Rlp.SplitTyped | rlp/raw.go:47-72 | splitting off a string fails with ErrExpectedString exactly on a list, splitting off a list with ErrExpectedList exactly on a string; otherwise they are Split |
| Rlp.SplitStr | rlp/raw.go:39-58 | splitting the encoding of a string, whatever follows it, gives the string, its kind and the rest |
| Rlp.SplitWrapped | rlp/raw.go:39-71 | splitting the encoding of a list gives its payload and the rest |
| Rlp.SplitCanonical | rlp/raw.go:86-156 | whatever splits is the canonical encoding of its content followed by the rest, and single bytes below 0x80 are their own encoding |
| Rlp.TagCanonical | rlp/raw.go:86-125 | an accepted header is the one shortest header for its kind and size |
| Rlp.BeValueBigEndian | rlp/encode.go:588-642 | the shortest big-endian form has the value it encodes |
| Rlp.BigEndianBeValue | rlp/raw.go:127-156 | a size without leading zero is the shortest form of its value |
| RlpEncoder.PutInt | rlp/encode.go:588-642 | the eight ranges store exactly the shortest big-endian form at the given position and nothing else |
| RlpEncoder.IntSize | rlp/encode.go:646-652 | the shift loop computes the length of the shortest big-endian form |
| RlpEncoder.PutHead | rlp/encode.go:150-159 | stores exactly the Appendix B header for tag and size |
| RlpEncoder.EncBuf.EncodeStringHeader | rlp/encode.go:191-200 | appends the string header for the size |
| RlpEncoder.EncBuf.EncodeString | rlp/encode.go:202-210 | appends the Appendix B encoding of the string |
| RlpEncoder.EncBuf.EncodeUint | rlp/encode.go:392-406 | an integer is encoded as the string of its shortest big-endian form, zero as the empty string |
| RlpEncoder.EncBuf.List | rlp/encode.go:212-216 | opens a list: a head that remembers the header bytes collected so far |
| RlpEncoder.EncBuf.ListEnd | rlp/encode.go:218-225 | closes a list: its head gets the size of all that was added since, and the header bytes are counted |
| RlpEncoder.EncBuf.Write | rlp/encode.go:202-229 | for every item tree: string data and heads are collected in pre-order, every head holds the payload length of its list, and size() grows by the exact encoded length |
| RlpEncoder.EncBuf.WriteAll | rlp/encode.go:509-527 | the element loop of a list writer, against the same specification |
| RlpEncoder.EncBuf.EncodeValue | rlp/encode.go:182-189 | one more value extends the merged output by exactly its Appendix B encoding |
| RlpEncoder.EncBuf.ToBytes | rlp/encode.go:231-247 | merging heads into the string data fills a buffer of exactly size() bytes with the output |
| RlpEncoder.EncodeToBytes | rlp/encode.go:97-105 | the deferred-header encoder computes the recursive Appendix B encoding of every item |
| RlpEncoder.MergeItem | rlp/encode.go:231-247 | the collected form of an item, merged at any offset and followed by anything, is its encoding |
| RlpEncoder.HeadsOrdered | rlp/encode.go:212-216 | heads are recorded with non-decreasing offsets, at any nesting depth |
| RlpEncoder.OrderedPairs | rlp/encode.go:231-247 | ordered heads: every offset in range and none below an earlier one |
| RlpEncoder.EncReader.Next | rlp/encode.go:307-339 | hands out the next piece of the output, an empty one only at the end |
| RlpEncoder.EncReader.Read | rlp/encode.go:282-303 | for buffers of any size: what is read, in order, is the output, and EOF comes exactly when nothing is left, where the buffer is released |
| RlpValues.ParseEncode | rlp/raw.go:39-125 | every encoded value is read back, whatever follows it |
| RlpValues.ParseCanonical | rlp/raw.go:39-125 | only encodings are read: the accepted bytes are the encoding of the result |
| RlpValues.EncodePrefixFree | rlp/encode.go:191-247 | no encoding is a proper prefix of another |
| RlpValues.CountParsed | rlp/raw.go:74-84 | CountValues of a concatenation of values is the number of values |
| RlpStream.Stream.constructor | rlp/decode.go:831-863 | a stream over input with an optional limit, its reader eager or not |
| RlpStream.Stream.WillRead | rlp/decode.go:1023-1041 | succeeds exactly when the innermost list and the limit allow n bytes, and then counts them in both |
| RlpStream.Stream.ReadFull | rlp/decode.go:997-1010 | for readers that deliver any chunk sizes, eager or not: exactly the next n bytes, or an error exactly when they are not allowed, not there, or come together with the end |
| RlpStream.Stream.ReadUint | rlp/decode.go:971-995 | the big-endian value of n bytes, refused exactly when unavailable, with a leading zero in two or more bytes, or when an eager reader ends with two or more |
| RlpStream.Stream.ReadKind | rlp/decode.go:909-969 | accepts exactly the canonical headers that may be read, unless an eager reader ends within one, and consumes exactly their bytes; every failure has the error of its cause, and io.EOF is returned exactly when no list is open and no byte is left or allowed |
| RlpStream.Stream.ReadTag | rlp/decode.go:923-968 | the kind and size a first byte announces, with the size bytes behind it read if there are any, or the error of reading them |
| RlpStream.HeaderErrorEOF | rlp/decode.go:909-922 | running out of input, or of limit, before a header is a normal end at the top level and nowhere else |
| RlpStream.HeaderErrorNone | rlp/decode.go:909-969 | a header gives no error exactly when it is canonical, allowed and not cut off |
| RlpStream.Stream.KindAhead | rlp/decode.go:876-907 | a header is consumed once, its value stays ahead, errors stick, the end of a list is reported exactly there, and io.EOF exactly when no header is held, no list is open, and no byte is left or allowed; the error is that of the header, a list smaller than its element or a limit smaller than its value |
| RlpStream.Stream.ReadString | rlp/decode.go:655-676 | succeeds exactly when the value ahead is a string within the bounds that an eager reader does not end with, returns it and moves behind it; otherwise the error of the header, ErrExpectedString for a list, that of the content, or ErrCanonSize for a byte that needed no header; io.EOF exactly at a normal end |
| RlpStream.Stream.OpenList | rlp/decode.go:764-776 | enters a list whose header fits the enclosing list or the limit; ErrExpectedList exactly for another header, io.EOF exactly at a normal end |
| RlpStream.Stream.CloseList | rlp/decode.go:780-795 | leaves a list exactly when it is at its end, and advances the enclosing list by its size |
| RlpStream.Stream.DecodeInterface | rlp/decode.go:495-517 | succeeds exactly when recursive splitting finds a value within the bounds, and it is not cut off by an eager reader, with the same value, and moves exactly behind it; io.EOF exactly at a normal end, never from inside a list |
| RlpStream.Stream.DecodeList | rlp/decode.go:307-320 | the same for lists, through the list stack |
| RlpStream.Stream.Elements | rlp/decode.go:322-351 | the element loop succeeds exactly when the list content is a concatenation of values, the last of which is not cut off |
| RlpStream.Stream.Raw | rlp/decode.go:679-701 | returns exactly the bytes it consumed, header included, although the header was rebuilt; fails exactly when they are not allowed, not there or cut off, with the error that says which, and io.EOF exactly at a normal end |
| RlpStream.Stream.Uint | rlp/decode.go:706-741 | accepts exactly strings of at most eight bytes without leading zero, with their big-endian value, unless an eager reader ends with two or more; the error tells a list, an overflow, a leading zero, a needless header and missing bytes apart, and io.EOF is a normal end |
| RlpStream.UintRoundTrip | rlp/encode.go:392-406 | what writeUint writes is accepted with the same value |
| RlpStream.UintCanonical | rlp/decode.go:710-741 | what is accepted as an integer is what writeUint writes for it |
| RlpStream.DecodeBytes | rlp/decode.go:119-129 | a bijection: decoding succeeds exactly on encodings, returns the encoded value, re-encodes to the input, agrees with recursive splitting, reports trailing data, and ends with io.EOF exactly for no input |
| RlpStream.EagerExact | rlp/decode.go:997-1010 | over the encoding of any value, an eager reader with ReadByte makes decoding fail if and only if the value ends with a string that is neither empty nor a single byte below 0x80 |
| RlpStream.EagerFails | rlp/decode.go:1006-1008 | a failing input for such a reader: the encoding 0x82 0x01 0x02 |
| RlpStream.EncReaderIsEager | rlp/encode.go:282-303 | one Read of the whole output returns the data together with EOF (this reader has no ReadByte, so a stream buffers it) |
| Trees.InsertCanon | trie/trie.go:218-285 | insertion keeps the canonical form: no empty or nested short keys, two children in every branch, values behind the terminator only |
| Trees.InsertLookup | trie/trie.go:218-285 | after an insertion the inserted key finds the value and every other key finds what it found before |
| Trees.InsertSame | trie/trie.go:218-285 | inserting the value that is there already changes nothing |
| Trees.DeleteCanon | trie/trie.go:309-416 | deletion keeps the canonical form, including the reduction of a branch to a short node and the merging of short keys |
| Trees.DeleteLookup | trie/trie.go:309-416 | after a deletion the key is gone and every other key finds what it found before |
| Trees.DeleteSame | trie/trie.go:309-416 | deleting an absent key changes nothing |
| Trees.Distinguish | trie/trie.go:218-416 | two different canonical tries differ on some key |
| TrieRuns.RunHolds | trie/trie.go:186-307 | the trie refines a finite map over every sequence of updates and deletions; an empty value deletes |
| TrieRuns.HoldsUnique | trie/trie.go:218-416 | a canonical trie is determined by its contents |
| TrieRuns.HistoryIndependence | trie/trie.go:218-416 | any two histories that reach the same map reach the identical trie |
| FromScratch.BuildHolds | trie/trie.go:218-416 | the direct construction of Appendix D of the Yellow Paper from any set of pairs is canonical and answers every lookup as the pairs do |
| FromScratch.RunBuilds | trie/trie.go:186-307 | every history ends in the trie that Appendix D builds from the resulting map |
| Nodes.DecodeNodeOf | trie/node.go:116-202 | decoding the RLP of any collapsed canonical node rebuilds that node: embedded children loaded, hashed children by reference |
| Nodes.FillFull | trie/node.go:158-175 | the child loop computes the decoded full node or the first error |
| Nodes.EmptyKeyPanics | trie/node.go:116-202 | on the encoding of any value: decodeNode succeeds if and only if it has the form of a node, and panics if and only if it comes to an empty key, in the node itself or in an embedded one with nothing wrong before it |
| Nodes.ShortestPanic | trie/encoding.go:54-64 | a failing input: 0xC2 0x80 0x80 |
| Represent.MerkleInjective | trie/hasher.go:153-171 | without collisions, equal node hashes mean equal tries |
| TrieOps.ResolveHash | trie/trie.go:432-442 | a hash node resolves to the node it stands for, or to a missing-node error with its hash and path exactly when it is not stored |
| TrieOps.TryGetAt | trie/trie.go:142-181 | on partly loaded tries with any cached hashes: the answer of the full trie, the same contents afterwards, an error only for a node that is not stored, with the path where that node sits on the way to the key; nodes loaded on the way, and those above them, carry the current generation |
| TrieOps.InsertAt | trie/trie.go:218-285 | on partly loaded tries: the result stands for the inserted tree, and is dirty exactly when something changed, then as a new unhashed node of the current generation; the error names the missing node and its path |
| TrieOps.DeleteAt | trie/trie.go:309-416 | the same for deletion, but the error has the path of the parent when the missing node is beside the key: the one child a branch has left |
| TrieOps.SoleNode | trie/trie.go:359-389 | the one child left is merged into a short node; the error, with the path of the branch, occurs exactly when that child is known by its hash only and not stored |
| TrieOps.LostFromRoot | trie/trie.go:432-442 | a reported path is a prefix of the key and ends at the missing node, or at its parent |
| TrieOps.SoleChild | trie/trie.go:358-368 | the scan finds whether exactly one child of a branch is left, and which |
| TrieOps.ReduceNode | trie/trie.go:348-392 | a branch with one child left becomes the short node of the reduced tree, loading the child where needed |
| Hasher.HashNode | trie/hasher.go:56-100 | with any cached hashes, flags and cache limit the result is the reference computed from scratch; clean subtrees are stored before they are unloaded; exactly the clean hashed nodes that are the limit or more generations behind are unloaded, the others keep their generation and become clean; the log of stored nodes leads from the old database to the new one, every node after those it refers to |
| Hasher.UnloadedAt | trie/node.go:65-68 | a clean hashed node last touched some commits ago, fewer than 2^16, is unloaded exactly when these are at least the limit, although generations wrap |
| Merkle.ReferenceLength | trie/hasher.go:153-172 | a node shorter than 32 bytes is embedded, one of 32 or more is replaced by its hash; references take less than 32 bytes or exactly 33 |
| Hasher.HashChildren | trie/hasher.go:103-151 | children are replaced by their references, and the cached copy stands for the same tree |
| Hasher.HashFull | trie/hasher.go:121-145 | the loop over the sixteen children, against the same specification |
| Hasher.StoreNode | trie/hasher.go:153-211 | nodes under 32 bytes are embedded unless forced, others are hashed and, with a database, stored under that hash and logged with the hashes of the children they refer to and the values shown to the leaf callback |
| Hasher.ShortRefs | trie/hasher.go:181-185 | the tracked reference of a short node is the hash of its child, if that is stored on its own |
| Hasher.FullRefs | trie/hasher.go:186-191 | the tracked references of a full node are the hashes of exactly its children that are stored on their own |
| StoreLog.LeavesShown | trie/hasher.go:195-209 | the values shown that are not empty are exactly those of the short nodes that are stored on their own |
| Hasher.WalkedLog | trie/hasher.go:73-80 | what a node refers to is stored before it, so the log of a pass is children first |
| Hasher.CleanStored | trie/hasher.go:56-80 | a clean node with a cached hash has all its separately stored nodes in the database, which makes unloading safe |
| MerkleTrie.Trie.Open | trie/trie.go:96-113 | opening a root hash gives a trie with the contents of that root, or an error if and only if the trie is not empty and its root node is not stored; the cache generation and the cache limit start at zero |
| MerkleTrie.Trie.TryGet | trie/trie.go:133-140 | equals the map lookup; a missing node is reported with its hash and with its path, a prefix of the key, and leaves the trie unchanged; complete tries never fail; afterwards every node on the way to the key is in memory |
| MerkleTrie.Trie.TryUpdate | trie/trie.go:200-216 | updates the map, an empty value deletes; a missing node leaves contents and nodes unchanged and, unless it was a deletion, is reported with its own path |
| MerkleTrie.Trie.TryDelete | trie/trie.go:296-307 | removes the key from the map; a missing node leaves contents and nodes unchanged, and is reported with its own path or, when it is beside the key, with that of its parent |
| MerkleTrie.Trie.Hash | trie/trie.go:450-455 | the root hash is a function of the contents alone, whatever was cached or loaded |
| MerkleTrie.Trie.Commit | trie/trie.go:458-469 | the same hash, everything reachable stored, nothing observable changed, exactly the old clean nodes unloaded, the 16-bit cache generation advanced; the new database is the old one with the logged insertions, children first |
| MerkleTrie.RootUnique | trie/trie.go:450-478 | the root hash of one trie with the given contents is that of all |
| MerkleTrie.RootFromScratch | trie/trie.go:450-478 | it equals the hash of the trie built from scratch from the key-value map |
| Proofs.CollectPath | trie/proof.go:38-67 | the first loop of Prove collects exactly the nodes on the path, or fails exactly on a node that is not stored |
| Proofs.Prove | trie/proof.go:37-89 | writes exactly the path nodes that are stored on their own, the root always, from the given level on |
| Proofs.GetInNode | trie/proof.go:131-153 | the walk inside one decoded node ends at a value, a hash or nothing, with the lookup unchanged |
| Proofs.VerifyProof | trie/proof.go:105-129 | sound and exact: a result is the trie's own answer, and there is one exactly when all proof elements of the path are present; the count is that of the elements up to the value, or up to the first missing one |
| Proofs.ProofComplete | trie/proof.go:37-129 | the elements Prove writes suffice for every key, present or absent |
| Proofs.ProveThenVerify | trie/proof.go:37-153 | proving and then verifying returns exactly the lookup, including embedded nodes and a small root |
| Walks.WalkIncreasing | trie/iterator.go:178-314 | the visiting order has strictly increasing paths, so no node comes twice |
| Walks.WalkLeaves | trie/iterator.go:138-158 | the visited leaves are exactly the stored keys with their values |
| Walks.DropBeforeExact | trie/iterator.go:197-214 | what is left after seeking are exactly the visits whose path is not before the key |
| Iterators.NodeIterator.Next | trie/iterator.go:178-194 | enters exactly the next node of the walk, skipping a subtree on request; ends only when nothing is ahead, whether or not nodes are missing; any other failure names the hash and path of the next node ahead, which the database does not have, and loses nothing of the walk; a failed seek is repeated first |
| Iterators.NodeIterator.Step | trie/iterator.go:188-193 | the step itself: the next node ahead, the end exactly when there is none, or an error that names it |
| Iterators.NodeIterator.Peek | trie/iterator.go:216-250 | finds the next node of the walk without entering it, and fails only for a node that is not stored |
| Iterators.NextChild | trie/iterator.go:264-300 | the first child not visited yet, or none exactly when the walk below is finished |
| Iterators.NodeIterator.Seek | trie/iterator.go:197-214 | leaves exactly the part of the walk at or after the key, although subtrees were skipped and the last node was only peeked at; a missing node is named and none of that part is lost |
| Iterators.VisitAll | trie/iterator.go:178-194 | repeated Next(true) visits every remaining node of the walk, in order |
| Iterators.VisitFrom | trie/iterator.go:115-122 | a complete trie iterated from a start key: exactly the visits whose path is not before it, in increasing order, and as leaves exactly the stored keys and values from it on |
| Difference.CompareMeaning | trie/iterator.go:316-332 | zero exactly for equal visits, otherwise consistent with the order of paths |
| Difference.SameSubtree | trie/iterator.go:398-412 | equal visits that carry a hash head equal subtrees, so both may be skipped |
| Difference.DifferenceIterator.Next | trie/iterator.go:376-416 | emits the next node of b that is not in a, and ends exactly when there is none |
| Difference.DifferenceAll | trie/iterator.go:376-416 | a whole iteration emits exactly the nodes of b that a does not have, in order |
| Difference.DifferenceLeaves | trie/iterator.go:343-416 | the emitted leaves are exactly the key-value pairs of b that are not in a |
| Database.Database.constructor | trie/database.go:73-81 | the empty cache with the meta-root: counts exact, size zero |
| Database.Database.Insert | trie/database.go:98-107 | adds an unknown node unreferenced; counts stay exact and nodesSize is the sum over cached nodes |
| Database.Database.Reference | trie/database.go:185-197 | adds an edge and counts it at the child; only the meta-root counts duplicates; counts stay exact |
| Database.Database.Dereference | trie/database.go:200-238 | exact collection: with exact counts, what survives is what can still be reached from the meta-root and from nodes that were unreferenced before; after commits, whatever the disk backed before it backs after |
| Database.Database.Drop | trie/database.go:216-238 | the recursive step: edge and count go together, an unreferenced child goes with everything only it kept |
| Database.Database.Cascade | trie/database.go:231-236 | the children of a dying node, in any map order |
| RefGraph.CollectedExactly | trie/database.go:216-238 | survivors and reachable nodes coincide, both directions |
| RefGraph.CountsMove | trie/database.go:185-238 | after any single edge change the nodes that are not on disk still count exactly the sum of children multiplicities, and references point to the cache or the disk |
| RefGraph.DropDone | trie/database.go:226-238 | dropping the last reference collects the child and what only it kept; counts stale after a commit belong to nodes on disk, so nothing off disk that is referenced goes |
| Database.Database.Node | trie/database.go:123-134 | the cached blob, else what the disk has |
| Database.Database.InsertPreimage | trie/database.go:113-119 | keeps the first preimage of a hash |
| Database.Database.Commit | trie/database.go:244-302 | for any map order and any failing write: every Node and preimage lookup is unchanged, the disk is the old one plus a prefix of writes in which no node precedes its cached children and nothing outside the subtrie is written, and on success exactly the committed subtrie is written and forgotten; it fails exactly when an operation on the disk does |
| Database.Database.CommitPreimages | trie/database.go:255-266 | all preimages under prefixed keys; the batch is written out exactly when it is over its size, and never grows beyond; it fails exactly when the disk does |
| Database.Database.CommitNode | trie/database.go:306-327 | the cached nodes at and below a hash, children first, each with its blob; a full batch is written out at once and no other; it fails exactly when the disk does |
| Database.Database.Uncache | trie/database.go:334-346 | removes exactly the cached nodes at and below a hash and keeps nodesSize exact |
| CommitOrder.BelowWritten | trie/database.go:306-327 | once a node is written so is everything cached below it |
| CommitOrder.PrefixKeeps | trie/database.go:244-302 | no prefix of the writes changes a lookup while the caches stand |
| CommitOrder.ForgetKeeps | trie/database.go:244-302 | after all writes the written nodes and all preimages may be forgotten without changing a lookup |
| CommitOrder.PurgedExactly | trie/database.go:334-346 | uncaching removes a hash and what is below it, no more and no less |
| Retained.KeptDropped | trie/database.go:200-238 | dropping a reference of the meta-root keeps the invariant of the node database: cached nodes not on disk have exact counts, references point to the cache or the disk, the disk is closed under children, cached nodes hold on to theirs |
| Retained.KeptWritten | trie/database.go:244-327 | after every single write of a commit the disk is closed under children and the invariant holds |
| Retained.KeptForgotten | trie/database.go:290-346 | forgetting a written subtrie keeps the invariant, although counts elsewhere go stale |
| Retained.BelowKept | trie/database.go:123-134 | whatever lies any number of references below a node that can be read can be read |
| Retained.RootKept | trie/database.go:177-197 | everything below a root referenced by the meta-root can be read |
| TrieStore.RefsTree | trie/hasher.go:180-192 | the references found in the data of a node are the hashes of its children that are stored on their own |
| TrieStore.NewDatabase | trie/database.go:73-81 | the invariant holds of an empty cache over any disk that is closed under children |
| TrieStore.StoreRecord | trie/hasher.go:177-193 | inserting a node and referencing its children keeps the invariant and changes what can be read by exactly that node |
| TrieStore.StoreAll | trie/hasher.go:177-193 | the logged insertions and references of a storing pass leave in the cache and on disk exactly the database the pass computed |
| TrieStore.ReferenceRoot | trie/database.go:177-197 | a root that is cached is referenced afterwards; nothing readable changes |
| TrieStore.ReferenceNode | trie/database.go:185-197 | a reference from a cached node, as the leaf callback makes them, keeps the invariant and every anchor; nothing readable changes |
| TrieStore.DereferenceRoot | trie/database.go:200-238 | dropping another root takes exactly what only that reference kept, and keeps the invariant and the anchor of this one |
| TrieStore.CommitStep | trie/database.go:244-302 | a commit, complete or cut short, changes nothing that can be read, and keeps the invariant and every anchor |
| TrieStore.Play | trie/database.go:90-346 | over any run of insertions, references from the meta-root and from cached nodes, dereferences of roots and commits, each of which does what it should to what can be read, the invariant holds and a root that is not dereferenced stays anchored |
| TrieStore.TreeKept | trie/database.go:123-134 | every node of a trie whose root can be read can be read, with its own data |
| TrieStore.CommitAndKeep | trie/trie.go:458-469 | a trie committed into the database and referenced can still be loaded completely after any run that does not dereference its root, whatever other roots are dropped |
| Batches.Batch.Put | ethdb/memory_database.go:107-111 | collects a write and its size |
| Batches.Batch.Flush | ethdb/memory_database.go:113-121 | applies the collected writes in order, or nothing |
| Batches.Batch.FlushFull | trie/database.go:321-326 | only for a batch that has reached the limit: writes it out and starts over |
| Batches.ApplySame | ethdb/memory_database.go:113-121 | a key written with one value only has that value |
| Sync.TrieSync.constructor | trie/sync.go:82-91 | over a closed database: the root is stored or the one pending request |
| Sync.TrieSync.AddSubTrie | trie/sync.go:94-123 | the exact new state for every parent; unless the parent still waits for its own data the invariant is kept, and an unknown trie, and nothing else, becomes pending below its parent with this callback, if it was not pending already |
| Sync.TrieSync.AddRawEntry | trie/sync.go:129-156 | the same for raw entries |
| Sync.TrieSync.Missing | trie/sync.go:159-165 | hands out the hashes of queue entries, each entry once, by non-increasing depth and none left deeper, up to the limit; every request without data is queued or handed out, and none left behind is deeper than what is handed out |
| Sync.TrieSync.Process | trie/sync.go:170-212 | any sequence of content-addressed results keeps the invariant: counts equal multiplicities, links covered, completed entries in order, nothing idle; every result before the index, or every one on success, is stored or waits with its data, the one at the index is refused for the stated reason, and committed says whether anything was completed |
| Sync.TrieSync.ProcessOne | trie/sync.go:173-210 | one result: refused without any change exactly when not requested, already processed or not decodable; otherwise no request is lost, exactly what the node asks for becomes pending, with the callback and depth of the first ask, children like their parent, and what is completed counts as seen exactly when its request had a callback |
| Sync.TrieSync.Schedule | trie/sync.go:238-247 | the exact new state: a new pending and queued request, or further parents of the pending one, which keeps its callback and depth |
| Sync.TrieSync.Children | trie/sync.go:251-309 | the leaves of a watched request reach the callback, whose requests are made in order, and exactly the children that are not stored are listed, at the depth that SyncDepths ties to their path |
| Sync.TrieSync.Complete | trie/sync.go:313-330 | the exact new state: the request is completed, and with it, in order, every parent whose count drops to zero; the pending set shrinks and the invariant is kept |
| Sync.TrieSync.Notify | trie/sync.go:322-328 | the parent loop: each parent entry lowers its count once |
| Sync.TrieSync.Commit | trie/sync.go:216-228 | writes in completion order; after every single write, and on failure, the database is closed under references by hash and under the leaf requests of seen entries; fails exactly when the database accepts fewer writes than there are, and then keeps what it had collected |
| SyncState.ScheduledOk | trie/sync.go:238-247 | scheduling keeps the invariant and covers the scheduled hash for its parents |
| SyncState.CompletedOk | trie/sync.go:313-330 | a request with no dependencies has everything it needs, so completing it keeps the completion order closed |
| SyncState.FlushedClosed | trie/sync.go:216-228 | every prefix of the writes leaves the database closed under child references, and under the leaf requests of seen entries |
| SyncState.ClosedStores | trie/sync.go:170-212 | a closed, content-addressed database that holds the root of a trie holds all of it |
| SyncSteps.NeverStuck | trie/sync.go:159-212 | on an acyclic graph, while anything is pending some request without data is queued at its depth or handed out |
| Sync.SyncComplete | trie/sync.go:231-233 | nothing pending and everything written: the whole trie under the root is stored, whatever was watched |
| Sync.SubStored | trie/sync.go:279-288 | in a closed database what the leaves of a seen entry asked for is stored as well |
| SyncSteps.AddKeeps | trie/sync.go:94-156 | registering keeps the invariant, unless under a parent that waits for its own data |
| SyncSteps.ServedListed | trie/sync.go:251-309 | the leaf requests and then the listed children are together all that the node asks for, each as first asked |
| SyncRuns.RunLost | trie/sync.go:238-247 | over any run a hash is pending or stored without callback if and only if it was at the start or an act is the first to ask for it without; nothing brings it back |
| SyncRuns.FirstDecides | trie/sync.go:238-247 | a stored entry is seen if and only if the act that first asked for it did so with a callback |
| SyncRuns.ChildLikeParent | trie/sync.go:289-305 | a child first asked for by its parent node is seen if and only if the parent is |
| SyncRuns.CallbackExact | trie/sync.go:94-309 | a trie registered with a callback, any run, nothing left pending: every node is stored, and is seen with all its leaf requests stored if and only if it was not pending or stored without callback at the registration and no act of the run is the first to ask for it without |
| SyncRuns.CallbackReaches | trie/sync.go:94-309 | a condition known beforehand: if nothing asked for without callback has a node of the trie below it, all nodes are seen and all their leaf requests stored |
| SyncDepths.RunPlaced | trie/sync.go:251-309 | over any run of registrations, deliveries and writes every pending trie node is a node of a registered trie, and its depth is that of the registration plus the length of the path to the node in the tree |
| SyncDepths.DepthOfPath | trie/sync.go:251-309 | so a node that only one registered trie has, at paths of one length, is requested at the depth of that trie plus that length |
| SyncDepths.ChildDepth | trie/sync.go:251-309 | whatever else is registered: when the node at a path is delivered, a stored child not yet known is requested at the depth of its own path, unless a leaf of the node asks for it first |
| SyncDepths.SyncTrie | trie/sync.go:79-89 | the class makes such runs: for a synchroniser of one trie the depth of every pending node is the length of a path to it |
| SyncRuns.Drive | trie/sync.go:82-228 | the class makes exactly such runs, over any sequence of registrations, results and writes |
| SyncRuns.LateCallback | trie/sync.go:238-243 | for every trie of one leaf: registered without callback and then with one, it is synchronised to the end while what the leaf asks for is never requested nor stored |
| SyncRuns.EarlyChild | trie/sync.go:289-305 | a new trie registered with a callback while its child is pending without one: everything is stored, and what the leaf below the child asks for is never requested |
| SyncRuns.DatalessParent | trie/sync.go:129-156 | a raw entry registered under the root before the data of the root has come: when its own data comes nothing is pending and the root is stored empty |
| Bitset.EncodeBytes | common/bitutil/compress.go:71-97 | computes the documented format: nothing for zeros, else the compressed bitset and the non-zero bytes |
| Bits.MostSignificantFirst | common/bitutil/compress.go:44-47 | bit i of a vector is bit 7 - i % 8 of byte i / 8 |
| Bitset.Collect | common/bitutil/compress.go:84-92 | the loop sets exactly the bits of the non-zero bytes and gathers them in order |
| Bitset.CompressBytes | common/bitutil/compress.go:60-67 | the encoding only where it is shorter |
| Bitset.DecodePartial | common/bitutil/compress.go:130-170 | computes the decoding with all error cases in their order |
| Bitset.Distribute | common/bitutil/compress.go:151-168 | the loop over the bits, in place |
| Bitset.DecodeErrors | common/bitutil/compress.go:146-168 | decoding fails with the error of its bitset or, if that decodes, with that of the first set bit whose byte is not there, has no place in the output, or is zero |
| Bitset.DecodeBytes | common/bitutil/compress.go:115-124 | decoding that must use up its input |
| Bitset.DecompressBytes | common/bitutil/compress.go:102-112 | input of the target size is taken as it is, longer input refused |
| Bitset.DecodeEncoded | common/bitutil/compress.go:71-170 | for every block not all zero and any suffix, partial decoding consumes exactly the encoding |
| Bitset.RoundTrip | common/bitutil/compress.go:71-170 | decoding inverts encoding on every block |
| Bitset.EncodeDecoded | common/bitutil/compress.go:130-170 | what partial decoding consumed is the encoding of its output |
| Bitset.OnlyEncodings | common/bitutil/compress.go:115-124 | every accepted input re-encodes to itself |
| Bitset.DecompressCompressed | common/bitutil/compress.go:60-112 | decompression inverts compression on every block |
| Bitset.OnlyCompressed | common/bitutil/compress.go:60-112 | accepted input is the compressed form of its output if and only if it is shorter than the target or does not compress |
| JumpAnalysis.Set | core/vm/analysis.go:52-54 | sets exactly one bit |
| JumpAnalysis.Set8 | core/vm/analysis.go:55-58 | sets exactly eight bits, across two bytes |
| JumpAnalysis.CodeBitmap | core/vm/analysis.go:70-94 | for every code: a bit is set exactly for push data of the sequential scan, and all writes stay inside the vector with its slack |
| JumpAnalysis.CodeSegment | core/vm/analysis.go:61-67 | whether a position is not marked as data; a panic exactly at the byte just past the bits |
| JumpAnalysis.Partition | core/vm/analysis.go:70-94 | every code byte is an instruction of the scan or push data, never both |
| JumpAnalysis.Destinations.Has | core/vm/analysis.go:31-45 | true exactly for JUMPDEST bytes at instruction boundaries (section 9.4.3 of the Yellow Paper), for every code and destination of any size |
| EvmMemory.SafeAdd | common/math/integer.go:89-91 | the overflow flag is exact and the sum true without it |
| EvmMemory.SafeMul | common/math/integer.go:94-99 | the overflow flag is exact and the product true without it |
| EvmMemory.ToWordSize | core/vm/common.go:66-72 | the least word count that covers the size, up to the largest 64-bit size |
| EvmMemory.Memory.MemoryGasCost | core/vm/gas_table.go:27-58 | the fee and the remembered price, in 64-bit arithmetic with its wrap-around, for every size |
| EvmMemory.Memory.Resize | core/vm/memory.go:47-51 | grows with zeros, never shrinks, keeps the contents |
| EvmMemory.Memory.Expand | core/vm/interpreter.go:185-210 | up to 0x1fffffffe0 bytes: whole words, lastGasCost is 3w + w*w/512, the fee is the difference of two prices |
| EvmMemory.ExpandAll | core/vm/interpreter.go:185-210 | over any sequence of expansions the fees telescope: the total depends on start and end only |
| EvmMemory.WordsAfterMax | core/vm/interpreter.go:185-210 | the end of a sequence is its largest request |
| EvmMemory.FeeExact | core/vm/gas_table.go:32-48 | below the guard the computed price is the true one if and only if the size is at most 0x1fffffffe0 |
| EvmMemory.GuardTooLoose | core/vm/gas_table.go:36-41 | a concrete size that passes the guard and whose price wraps: 0x2000000000 |
| EvmMemory.Memory.ExactFee | core/vm/gas_table.go:27-58 | with gas and paid memory together below 3 * 2^32, the linear price of the first size that wraps, an affordable fee is the true difference of two prices |
| EvmGas.CallGasBounds | core/vm/gas.go:42-58 | never more than requested; after EIP-150 exactly the smaller of the request and all but a 64th of what the base price leaves |
| EvmGas.CallUnaffordable | core/vm/gas_table.go:317-449 | a base price above the available gas always ends out of gas, although the subtraction wraps |
| EvmGas.CallLeaves64th | core/vm/gas_table.go:317-449 | an affordable call after EIP-150 leaves the caller a 64th |
| EvmGas.PricePositive | core/vm/gas_table.go:60-461 | the memory fee is part of every price it belongs to; beyond it every instruction that does not end its frame costs gas, and a call costs more than it gives, stipend included |
| EvmGas.PriceList | core/vm/gas_table.go:60-461 | the checked sums are the sums of the price list in numbers, for all three price tables, an overflow exactly when the sum or the size does not fit in 64 bits, with the memory fee for the instructions that use memory and for no other |
| EvmGas.CallPrice | core/vm/gas_table.go:306-461 | a call costs its flat price, the memory fee and what the callee gets; before EIP-150 the callee gets what was asked for |
| Evm.Contract.UseGas | core/vm/contract.go:123-129 | takes the amount exactly when it is there |
| Evm.EVM.CallFrame | core/vm/evm.go:158-332 | for all programs and states, at any depth: the frame is entered exactly when recursion, depth, balance and account allow it; what the frame ended with comes back after a normal end and after a revert, nothing after any other end, all of it when it was not entered; depth restored |
| Evm.EVM.CreateFrame | core/vm/evm.go:335-411 | the same, with the price of the code taken off after a normal end; too large code and unpaid code (from Homestead on) cost everything, a revert returns what is left, a collision takes all |
| Evm.EVM.RunContract | core/vm/evm.go:42-53 | precompiled contracts cost what they require, and fail exactly when that is not there or they fail themselves; without code nothing is spent; the interpreter never adds gas; the status and gas a contract ends with are what the frame goes by |
| Evm.EVM.MemoryNeeded | core/vm/interpreter.go:186-197 | the size in whole words, unless it does not fit in 64 bits |
| Evm.EVM.Charge | core/vm/interpreter.go:184-210 | the memory size is rounded up to words; the price is the one of the gas table, an error when the size is above the guard, and is paid in full or not at all; below 3 * 2^32 gas its memory part is the difference of the two fees |
| Evm.EVM.Run | core/vm/interpreter.go:111-240 | the loop terminates and never adds gas, with sub-calls to any depth; it ends as its last round does, and normally without code or when it is told to stop; a frame with less than 3 * 2^32 gas never has memory whose price wraps and has paid for all of it |
| Evm.EVM.Iterate | core/vm/interpreter.go:162-239 | a round fails exactly when the instruction is unknown or refused, cannot be paid for, or fails in itself; otherwise it has paid exactly its price and got back exactly what its call or creation left; if it goes on it has strictly less gas; memory grows in whole words, and below 3 * 2^32 gas the growth is paid for out of the gas of the frame |
| Evm.EVM.Execute | core/vm/instructions.go:609-748 | only a creation gives gas away, all or all but a 64th; only calls and creations bring gas back, and less than was paid |
| Evm.EVM.OpCall | core/vm/instructions.go:642-748 | the callee gets callGasTemp and the stipend without overflow, and exactly what its frame left is added back, without overflow |
| Evm.EVM.OpCreate | core/vm/instructions.go:609-640 | all gas goes to the new frame, after EIP-150 all but a 64th, and exactly what that leaves comes back |

## Left out

- Keccak, signatures and precompiled contracts: foreign code, free or unspecified here.
- Hasher: what the leaf callback does with the values it is shown; the references it makes are operations of TrieStore.Play.
- Trie and proof databases that are not content addressed: nothing is stated of them.
- DifferenceIterator: the statistics count it also keeps, and walks over tries that have missing nodes.
- NodeIterator: Parent, and the key-value Iterator wrapper; the union iterator, which rests on container/heap.
- SecureTrie: hashed keys in front of the same trie.
- Database.Database.Dereference: a reference that does not exist, whose count the source takes to -1; the statistics counters; after a Commit garbage may stay, since uncaching leaves the counts of other nodes alone, and only what must not go is stated.
- TrieStore.Play: dereferencing a parent other than the meta-root, which the source allows and which may take children from a node that is still there.
- Database: locks, preimagesSize, and floating-point storage sizes (exact integers here).
- Sync.TrieSync: leaf callbacks that fail, and a writer other than the database itself; leaves inside embedded nodes are not handed to the callback, as in the source.
- Stream and encbuf: reflection, struct tags and typed decoding; values are byte strings, lists and unsigned integers. toWriter, which makes the same pieces as the reader.
- Nodes.EmptyKeyPanics: the panic is an error value here.
- Sync.TrieSync.ProcessOne: where decoding panics only that the state is valid is said of it.
- Bitset and byte buffers: slices are values unless the source fills them in place.
- Destinations.Has: that a cached bitmap belongs to the same code is a precondition, since nested calls share the cache.
- Evm: what instructions compute, state changes and refunds; execution with gas metering disabled, which need not terminate.
- accounts/abi, key stores, logging, configuration: not part of this model.
