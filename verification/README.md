# RustSMB verification

RustSMB is an SMB2/3 server whose state can be shared by a cluster. This project models the
parts of it that keep state and proves what they promise, for all inputs and over all runs.

| modules | part of the server |
|---|---|
| `Paths`, `Vfs`, `MemoryTree`, `MemoryFs`, `MemoryFsEffects`, `MemoryFsHandles`, `MemoryFsData`, `MemoryFsErrors`, `MemoryBackend` | the in-memory filesystem: path normalisation, the node tree, ref-counted open files |
| `Der`, `Spnego`, `SpnegoWire`, `SpnegoOverflow`, `SpnegoPanics` | the SPNEGO token codec (sections 4.2.1 and 4.2.2 of RFC 4178, lengths as in section 8.1.3 of ITU-T X.690) |
| `ByteRanges`, `LockTables` | byte-range locks: the conflict rule, the flat store, the per-file table of the Raft state machine |
| `LeaseStates`, `Leases`, `LeaseBreaks`, `LeaseBreakResults`, `LeaseProtocol`, `LeaseAnswers`, `LeaseEffects` | leases: granting, the lease table, the registry of pending breaks, both as one protocol, and what the clients are told |
| `StateTypes`, `StateStore`, `Sessions` | the state store and the deletion of a session (section 3.3.7.1 of MS-SMB2) |
| `CachedStore`, `CachedStateStore`, `CacheEpochs`, `CacheLifetimes` | the write-through cache with LRU, TTL and epochs |
| `Credits`, `AsyncRequests`, `Connection` | a connection's flow control, asynchronous requests and sessions |

Each part has a state datatype and step functions; runs are sequences of steps. Objects that the
server updates in place are classes, and each of their methods is proved to reach the state and
answer of the step it models. What the steps promise is then stated independently of how they
compute it: as invariants of all runs, as views of the tree at every path, as sets of bytes or
requests, or as agreement with a simpler store. `dafny verify dfyconfig.toml` checks everything.

Choices the source leaves to its environment are parameters: the clock, the order in which a hash
map lists its entries, which cache entries are evicted, whether a connection takes an event, how
often a weak compare-and-swap fails, and the interleaving of threads in the credit manager.
Elsewhere each call is one step; a lease break has separate steps for sending, parking,
acknowledgment, expiry, waking and the waiter's own timeout.

Where the code does less than it seems to promise, the code is modelled as it is and the exact
condition is proved:

- A failed rename can lose the node: it is taken out before the new parent is looked up
  (`FailedRename`, `RenameBelowItselfLoses`). A rename of a path to itself succeeds even if
  nothing is there (`RenameOutcome`).
- Reads and writes follow the path recorded at the first open, so a handle can reach a file
  that is not its own (`HandleReachesItsFile`, `InPlaceIffUndisturbed`, `ReopenedNameRun`).
- The lock comparison works with saturating ends, so locks that meet only at the largest
  offset do not conflict (`TopByteGap`, `TopByteExample`). The LOCK handler refuses ranges
  that end beyond the signed 64-bit offsets, so its requests never get there
  (`RequestedOverlap`, `RequestedExclusion`).
- The lease check looks at the path it is given, while the entry is stored under its own path
  (`CheckedPathMatters`); `create_lease` and `update_lease` do not check at all
  (`UncheckedCreate`, `UpdateExactly`), so a break result stored late can leave a second
  holder beside a writer (`OneWriterIffStoresFit`, `StaleResultRun`).
- Breaking a lease to the calculated state does not always end its conflict with the request
  (`BreakRemovesConflict`).
- Lengths of 2^24 and more do not survive the three length bytes (`LengthRoundTrip`). Of the
  outer lengths the parsers use only how many bytes they take, so larger tokens can still be
  parsed (`InitRoundTrip`, `InitRoundTripExactly`).
- A declared length near 2^64 takes the end of a triple beyond 64 bits. With overflow checks
  this stops the parser exactly when it comes to such a triple (`InitOverflowsExactly`,
  `RespOverflowsExactly`, `StayingToken`). Without them the loop runs for ever exactly when it
  comes back to a field (`ForeverIffReturns`, `ReturningToken`), which needs such a length
  (`EndsWithoutLongField`).
- A declared length that ends beyond the data makes the parsers panic exactly when they cut
  out the value it belongs to; other fields may declare any length (`InitPanicsExactly`,
  `RespPanicsExactly`).
- The second look after the breaks can tell a client a state that is not stored, and a later
  creation does not see it (`RaisedAnswerRun`, `ToldSafeIffAnswersSafe`).
- The epoch listener sets an announced epoch even when the local one is already past it, so
  entries from before can become valid again (`ListenersStaleHit`, `ListenersReturn`).
- Deleting session 0 leaves its durable handles in session 0 (`NothingLeft`).
- A message id registered twice hides the older request from a CANCEL (`RunCovered`).
- Negotiating while sessions exist makes the connection state forget them
  (`RunTellsSessions`). A reset of the credits forgets the totals (`ResetKeepsConservation`).

## Model

| member | source | states |
|---|---|---|
| `MemoryFs.RenameMovesSubtree` | crates/rustsmb-backend-memory/src/lib.rs:858-940 | A successful rename to another name: at every relative path the new name resolves to what the old one did, the old name shows nothing unless the new name is above it, and every path under neither name keeps kind, inode and content; the new name is never below the old one |
| `MemoryFs.RenameOutcome` | crates/rustsmb-backend-memory/src/lib.rs:858-940 | A rename succeeds exactly when neither path is the root and the names are equal or the node exists and the new parent is a directory once the node is out; open entries and the inode counter stay |
| `MemoryFs.FailedRename` | crates/rustsmb-backend-memory/src/lib.rs:883-938 | A failed rename keeps the tree exactly when a path is the root or the old name does not resolve; otherwise everything under the old name is gone and nothing else changed |
| `MemoryFs.RenameBelowItselfLoses` | crates/rustsmb-backend-memory/src/lib.rs:883-938 | Renaming a node to a name below itself always fails and always loses the node |
| `MemoryTree.CannotMoveBelowItself` | crates/rustsmb-backend-memory/src/lib.rs:883-938 | Once a node is taken out, no path below its old name has a parent directory |
| `MemoryTree.MoveUnderNew` | crates/rustsmb-backend-memory/src/lib.rs:883-938 | After a move every path under the new name resolves to what was under the old name |
| `MemoryTree.MoveUnderOld` | crates/rustsmb-backend-memory/src/lib.rs:883-938 | After a move nothing resolves under the old name, unless the move replaced an ancestor of it |
| `MemoryTree.MoveElsewhere` | crates/rustsmb-backend-memory/src/lib.rs:883-938 | A move is invisible at every path under neither name |
| `MemoryTree.InsertLeafSees` | crates/rustsmb-backend-memory/src/lib.rs:716-728 | What an insertion of a new leaf shows at every path |
| `MemoryTree.RemoveSees` | crates/rustsmb-backend-memory/src/lib.rs:845-854 | What a removal shows at every path |
| `MemoryTree.MoveKeepsInodes` | crates/rustsmb-backend-memory/src/lib.rs:883-938 | A move keeps inodes distinct and below the counter |
| `MemoryTree.InsertFreshKeepsInodes` | crates/rustsmb-backend-memory/src/lib.rs:720-728 | A new leaf with the next inode keeps inodes distinct and below the advanced counter |
| `MemoryFs.RunInv` | crates/rustsmb-backend-memory/src/lib.rs:257-1007 | In every reachable state all inodes of the tree are distinct and below the counter, and so are those of open entries |
| `MemoryFs.NewDirectoryEntryIsFresh` | crates/rustsmb-backend-memory/src/lib.rs:292-302 | The open entry made for a newly created directory has an inode with no live entry, so none is overwritten |
| `MemoryFs.OpenEntriesCountOpens` | crates/rustsmb-backend-memory/src/lib.rs:257-508 | Over every run an inode has an open entry exactly while opens of it are unclosed, and the reference count is their number |
| `MemoryFs.OpenAddsReference` | crates/rustsmb-backend-memory/src/lib.rs:257-396 | A successful open adds one reference under the inode in the handle; a failed open adds none |
| `MemoryFs.WriteThenRead` | crates/rustsmb-backend-memory/src/lib.rs:398-487 | After a successful write a read of the same range returns the data; every other path shows what it did; the file keeps its inode |
| `MemoryFsHandles.InPlaceIffUndisturbed` | crates/rustsmb-backend-memory/src/lib.rs:257-1007 | Over every run all open inodes are at their recorded paths in every state if and only if no call unlinks, removes, renames away or renames over an open inode |
| `MemoryFsHandles.StepInPlace` | crates/rustsmb-backend-memory/src/lib.rs:257-1007 | The same for one call |
| `MemoryFsHandles.StepKeeps` | crates/rustsmb-backend-memory/src/lib.rs:257-1007 | For every call and path, the inode there stays exactly when the call does not take it away |
| `MemoryFsHandles.HandleReachesItsFile` | crates/rustsmb-backend-memory/src/lib.rs:398-487 | A handle reads and writes exactly the file with its own inode while that is at its recorded path; otherwise a successful write goes to a file with another inode |
| `MemoryFsHandles.ReopenedNameRun` | crates/rustsmb-backend-memory/src/lib.rs:398-487 | A run in which a handle writes a file that is not its own: open, rename, create the old name again, write |
| `MemoryFsData.ReadGives` | crates/rustsmb-backend-memory/src/lib.rs:398-428 | Through a handle on a path that shows a file, a read gives as many bytes as asked for or as there are from the offset on, each the file's byte at its place |
| `MemoryFsData.ReadsJoin` | crates/rustsmb-backend-memory/src/lib.rs:398-428 | Two reads, one behind the other, together give the one longer read, also across the end of the file |
| `MemoryFsData.ReadWhole` | crates/rustsmb-backend-memory/src/lib.rs:398-428 | A read from 0 that asks for at least the file's length gives the whole file |
| `MemoryFsData.ReadAfterWrite` | crates/rustsmb-backend-memory/src/lib.rs:398-487 | After a write, every read of the same path through any handle and of any range gives the written, old or zero byte at each place; reads of other paths give what they gave; the write reports its byte count modulo 2^32 |
| `MemoryFsErrors.RefusesExactly` | crates/rustsmb-backend-memory/src/lib.rs:257-1007 | Every call fails exactly when what is seen at its paths refuses it, and with exactly that error; a successful open names the inode now at the path |
| `MemoryFsErrors.FailureChangesNothing` | crates/rustsmb-backend-memory/src/lib.rs:257-1007 | A failed call leaves the state alone, except exactly a rename between non-root paths whose old name is there |
| `MemoryFs.WriteAtBytes` | crates/rustsmb-backend-memory/src/lib.rs:466-479 | Byte by byte, a written file has the data in its range, the old bytes outside it and zeros in the gap |
| `MemoryFs.WalkNormal` | crates/rustsmb-backend-memory/src/lib.rs:227-247 | The walk over a joined component list finds exactly what the components resolve to, with the walk's error otherwise |
| `MemoryFs.GetNodeResolves` | crates/rustsmb-backend-memory/src/lib.rs:227-247 | get_node on any spelling of a path gives the node its components lead to, or the error with the normal path |
| `MemoryFsEffects.MkdirEffect` | crates/rustsmb-backend-memory/src/lib.rs:681-732 | mkdir succeeds exactly for an absent non-root path with a directory parent, and then shows one new empty directory with the next inode and nothing else |
| `MemoryFsEffects.SymlinkEffect` | crates/rustsmb-backend-memory/src/lib.rs:951-1007 | The same for symlink, with the target stored |
| `MemoryFsEffects.RmdirEffect` | crates/rustsmb-backend-memory/src/lib.rs:734-788 | rmdir succeeds exactly for a non-root directory with nothing below it, and removes exactly that path |
| `MemoryFsEffects.UnlinkEffect` | crates/rustsmb-backend-memory/src/lib.rs:810-856 | unlink succeeds exactly for a present non-root path that is not a directory, and removes exactly that path |
| `MemoryFsEffects.OpenDirectoryEffect` | crates/rustsmb-backend-memory/src/lib.rs:267-305 | When a directory open succeeds, which inode its handle names and what it creates, by create and exclusive flags |
| `MemoryFsEffects.OpenFileEffect` | crates/rustsmb-backend-memory/src/lib.rs:307-394 | The same for a file open, with truncation and creation, against what the path shows |
| `MemoryFsEffects.ReadWriteOutcome` | crates/rustsmb-backend-memory/src/lib.rs:398-487 | Reads and writes succeed exactly when the handle is open on a path that shows a file |
| `MemoryBackend.WalkTo` | crates/rustsmb-backend-memory/src/lib.rs:227-247 | The component loop computes the walk used by the specification |
| `MemoryBackend.Backend.GetNode` | crates/rustsmb-backend-memory/src/lib.rs:227-247 | get_node returns the node the normalised path resolves to, or the walk's error |
| `MemoryBackend.Backend.Mkdir` | crates/rustsmb-backend-memory/src/lib.rs:681-732 | The method on the object's tree, open-file map and inode counter reaches exactly the state and result of the specification step |
| `MemoryBackend.Backend.Symlink` | crates/rustsmb-backend-memory/src/lib.rs:951-1007 | The method on the object's tree, open-file map and inode counter reaches exactly the state and result of the specification step |
| `MemoryBackend.Backend.Rmdir` | crates/rustsmb-backend-memory/src/lib.rs:734-788 | The method on the object's tree, open-file map and inode counter reaches exactly the state and result of the specification step |
| `MemoryBackend.Backend.Unlink` | crates/rustsmb-backend-memory/src/lib.rs:810-856 | The method on the object's tree, open-file map and inode counter reaches exactly the state and result of the specification step |
| `MemoryBackend.Backend.Rename` | crates/rustsmb-backend-memory/src/lib.rs:858-940 | The method on the object's tree, open-file map and inode counter reaches exactly the state and result of the specification step |
| `MemoryBackend.Backend.Open` | crates/rustsmb-backend-memory/src/lib.rs:257-396 | The method on the object's tree, open-file map and inode counter reaches exactly the state and result of the specification step |
| `MemoryBackend.Backend.OpenDirectory` | crates/rustsmb-backend-memory/src/lib.rs:267-305 | The method on the object's tree, open-file map and inode counter reaches exactly the state and result of the specification step |
| `MemoryBackend.Backend.OpenFile` | crates/rustsmb-backend-memory/src/lib.rs:307-394 | The method on the object's tree, open-file map and inode counter reaches exactly the state and result of the specification step |
| `MemoryBackend.Backend.Close` | crates/rustsmb-backend-memory/src/lib.rs:489-508 | The method on the object's tree, open-file map and inode counter reaches exactly the state and result of the specification step |
| `MemoryBackend.Backend.Write` | crates/rustsmb-backend-memory/src/lib.rs:430-487 | The method on the object's tree, open-file map and inode counter reaches exactly the state and result of the specification step |
| `MemoryBackend.Backend.Read` | crates/rustsmb-backend-memory/src/lib.rs:398-428 | The bytes read are those of the specification; nothing changes |
| `Vfs.OpenFlagsMeaning` | crates/rustsmb-vfs/src/types.rs:217-284 | Each open flag is set for exactly the access bits, options and dispositions documented for it |
| `Vfs.OpenFlagsByNumber` | crates/rustsmb-vfs/src/types.rs:217-284 | The same by the protocol's numbers: access masks, option bit and dispositions |
| `Paths.NormalizePath` | crates/rustsmb-backend-memory/src/lib.rs:195-212 | The loop over the parts computes the memory normaliser's specification |
| `Paths.LocalNormalizePath` | crates/rustsmb-backend-local/src/lib.rs:205-232 | The loop with its depth counter computes the local normaliser's specification |
| `Paths.ComponentsLaws` | crates/rustsmb-backend-memory/src/lib.rs:195-212 | The equations that determine the components of every path: a last part names a child, stays, or goes up, and the root has no parent |
| `Paths.NormalizeIdempotent` | crates/rustsmb-backend-memory/src/lib.rs:195-212 | Normalising twice is normalising once, denotes the same components, and these are clean names |
| `Paths.ComponentsOfJoin` | crates/rustsmb-backend-memory/src/lib.rs:195-212 | A clean component list is what its joined path denotes |
| `Paths.LocalAgreesWithMemory` | crates/rustsmb-backend-local/src/lib.rs:205-232 | The local normaliser refuses exactly the paths in which some prefix has more .. than names, and equals the memory one on all others |
| `Paths.LocalNormalizeIdempotent` | crates/rustsmb-backend-local/src/lib.rs:205-232 | An accepted path normalises to itself the second time |
| `Paths.SplitPathOfJoin` | crates/rustsmb-backend-memory/src/lib.rs:215-224 | split_path of a normal path gives the normal path of the parent and the last name, and nothing for the root |
| `Paths.SlashesAround` | crates/rustsmb-backend-memory/src/lib.rs:215-224 | Slashes before and after a path make no difference to split_path |
| `Spnego.InitRoundTrip` | crates/rustsmb-auth/src/spnego.rs:290-518 | For every OID list and optional token below 2^24 bytes each, with outer lengths below 2^24 or at least 2^16 modulo 2^24, parsing the built NegTokenInit gives exactly the list and token; it is never taken for a NegTokenResp |
| `Spnego.InitRoundTripExactly` | crates/rustsmb-auth/src/spnego.rs:290-518 | When list, token and inner lengths meet that, the round trip holds if and only if the wrapper's length is below 2^24 or at least 2^16 modulo 2^24 |
| `Spnego.WrapperSizeLost` | crates/rustsmb-auth/src/spnego.rs:300-310 | With any other wrapper length no built token is parsed |
| `Spnego.ShortBodyFits` | crates/rustsmb-auth/src/spnego.rs:482-518 | Every token with a GSS body below 2^24 bytes meets the conditions |
| `Spnego.UnwrappedInitRoundTrip` | crates/rustsmb-auth/src/spnego.rs:290-363 | The same round trip without the GSS-API wrapper |
| `Spnego.RespRoundTrip` | crates/rustsmb-auth/src/spnego.rs:366-479 | For every state, mechanism, token and MIC under the same conditions, parsing the built NegTokenResp gives state, mechanism and token, the MIC skipped; it is never taken for a NegTokenInit |
| `Spnego.ShortRespFits` | crates/rustsmb-auth/src/spnego.rs:431-479 | Every token with a body below 2^24 bytes meets the conditions |
| `Spnego.MechTypesRoundTrip` | crates/rustsmb-auth/src/spnego.rs:583-616 | Parsing an encoded mechanism list gives the list |
| `Der.LengthRoundTrip` | crates/rustsmb-auth/src/spnego.rs:522-567 | Decoding an encoded length gives it back if and only if it is below 2^24, whatever follows it |
| `Der.DecodedLength` | crates/rustsmb-auth/src/spnego.rs:522-567 | For every length, what the decoder finds at the front of its encoding |
| `Der.ReadTlv` | crates/rustsmb-auth/src/spnego.rs:522-567 | Standing at a triple with a short enough body, the parser finds its tag, size and body |
| `Der.ParseDerLength` | crates/rustsmb-auth/src/spnego.rs:522-543 | The accumulation loop computes the decoder's specification, with the overflow and short-input cases |
| `SpnegoWire.LengthIsShortest` | crates/rustsmb-auth/src/spnego.rs:557-567 | The encoder writes the shortest definite form of X.690 if and only if the length is below 2^24 |
| `SpnegoPanics.DerLengthExactly` | crates/rustsmb-auth/src/spnego.rs:522-543 | The decoder on all data: short form, or a big-endian value of the counted bytes; no value exactly for count 0, missing bytes or a value beyond 64 bits |
| `SpnegoWire.RespWire` | crates/rustsmb-auth/src/spnego.rs:431-479 | The bytes of a built response: tags, the code of each state, mechanism, token and MIC, in order |
| `SpnegoWire.InitWire` | crates/rustsmb-auth/src/spnego.rs:482-520 | The bytes of a built initial token: GSS-API tag, SPNEGO mechanism, mechanism list and token |
| `SpnegoWire.StateCodeRead` | crates/rustsmb-auth/src/spnego.rs:366-427 | The parser reads state codes 0 to 3 as the four states and any other code as none |
| `SpnegoWire.EmptyTokensRead` | crates/rustsmb-auth/src/spnego.rs:290-427 | Tokens without fields are read as empty |
| `SpnegoPanics.InitPanicsExactly` | crates/rustsmb-auth/src/spnego.rs:290-364 | parse_neg_token_init panics if and only if its field loop comes to a mechanism list, an OID of the list or an octet string that ends beyond the data it is cut from |
| `SpnegoPanics.RespPanicsExactly` | crates/rustsmb-auth/src/spnego.rs:366-427 | parse_neg_token_resp panics if and only if it comes to an OID or octet string that ends beyond the data |
| `SpnegoPanics.InitFieldSets` | crates/rustsmb-auth/src/spnego.rs:330-360 | Each field sets its own part of the result and only with content of its tag; everything else leaves the result as it is |
| `SpnegoPanics.RespFieldSets` | crates/rustsmb-auth/src/spnego.rs:385-424 | The same for a response, with the state byte at its place |
| `Spnego.EncodeOid` | crates/rustsmb-auth/src/spnego.rs:569-574 | The appended buffer is the nested triple of the specification |
| `Spnego.EncodeOctetString` | crates/rustsmb-auth/src/spnego.rs:576-581 | The appended buffer is the nested triple of the specification |
| `Spnego.EncodeMechTypes` | crates/rustsmb-auth/src/spnego.rs:606-616 | The appended buffer is the nested triple of the specification |
| `Spnego.BuildNegTokenInit` | crates/rustsmb-auth/src/spnego.rs:482-518 | The appended buffer is the nested triple of the specification |
| `Spnego.BuildNegTokenResp` | crates/rustsmb-auth/src/spnego.rs:431-479 | The appended buffer is the nested triple of the specification |
| `Spnego.ParseMechTypes` | crates/rustsmb-auth/src/spnego.rs:583-604 | The offset loop computes the parser's specification, including no-value, out-of-range slices and sums beyond 64 bits |
| `Spnego.ParseNegTokenInit` | crates/rustsmb-auth/src/spnego.rs:290-363 | The offset loop computes the parser's specification, including no-value, out-of-range slices and sums beyond 64 bits |
| `Spnego.ParseNegTokenResp` | crates/rustsmb-auth/src/spnego.rs:366-428 | The offset loop computes the parser's specification, including no-value, out-of-range slices and sums beyond 64 bits |
| `Spnego.ParseInitLoop` | crates/rustsmb-auth/src/spnego.rs:327-362 | The offset loop computes the parser's specification, including no-value, out-of-range slices and sums beyond 64 bits |
| `Spnego.ParseRespLoop` | crates/rustsmb-auth/src/spnego.rs:386-427 | The offset loop computes the parser's specification, including no-value, out-of-range slices and sums beyond 64 bits |
| `SpnegoOverflow.InitOverflowsExactly` | crates/rustsmb-auth/src/spnego.rs:290-363 | parse_neg_token_init overflows if and only if it comes to a triple whose declared end is beyond 64 bits: the wrapper's mechanism, or, after some number of rounds, a field, the token in it, its mechanism list or an OID of the list |
| `SpnegoOverflow.RespOverflowsExactly` | crates/rustsmb-auth/src/spnego.rs:366-428 | The same for parse_neg_token_resp |
| `SpnegoOverflow.OverflowNeedsLongLength` | crates/rustsmb-auth/src/spnego.rs:290-428 | A parser overflows only on a token that somewhere declares such a length |
| `SpnegoOverflow.LongFieldOverflows` | crates/rustsmb-auth/src/spnego.rs:330-334 | A field that declares such a length overflows both loops, whatever its tag |
| `SpnegoOverflow.ForeverIffReturns` | crates/rustsmb-auth/src/spnego.rs:330-360 | With overflow checks or with wrapping sums, a field loop runs for ever if and only if it comes back to a field where it has been, and if and only if it still stands at a field after as many rounds as the token has bytes |
| `SpnegoOverflow.EndsWithoutLongField` | crates/rustsmb-auth/src/spnego.rs:330-360 | With overflow checks the loop always ends; with wrapping sums it ends, within as many rounds as the token has bytes, if no field it comes to is long |
| `SpnegoOverflow.WrappedEnd` | crates/rustsmb-auth/src/spnego.rs:330-359 | With wrapping sums a field does not move the parser forward exactly for such lengths up to 2^64 - 5, and leaves it in place exactly for 2^64 - 5 |
| `SpnegoOverflow.LoopStaysExactly` | crates/rustsmb-auth/src/spnego.rs:330-360 | The loop stays at a field of an ignored tag for ever if and only if its length is 2^64 - 5 |
| `SpnegoOverflow.StayingToken` | crates/rustsmb-auth/src/spnego.rs:290-363 | A token that overflows with checks and keeps the wrapping loop at its first field for ever |
| `SpnegoOverflow.ReturningToken` | crates/rustsmb-auth/src/spnego.rs:290-363 | A token that overflows with checks and takes the wrapping loop back and forth between two fields for ever |
| `ByteRanges.OverlapIsIntersection` | crates/rustsmb-state/src/coordination.rs:259-290 | The saturating comparison holds exactly when the ranges share a byte below the largest offset, for length 0, overflow and the largest offset too |
| `ByteRanges.TopByteGap` | crates/rustsmb-state/src/coordination.rs:259-290 | Over all offsets the comparison misses exactly the pairs that both reach the largest offset while one starts there |
| `ByteRanges.TopByteExample` | crates/rustsmb-state/src/coordination.rs:259-290 | Two exclusive locks of different handles on the last byte that do not conflict |
| `ByteRanges.RequestedOverlap` | crates/rustsmb-server/src/handler.rs:4396-4408 | For ranges that pass the lock handler's check the comparison is intersection over all offsets |
| `ByteRanges.RequestedExclusion` | crates/rustsmb-server/src/handler.rs:4396-4408 | Where every lock passed that check the exclusion holds at every offset |
| `ByteRanges.ConflictMeaning` | crates/rustsmb-state/src/coordination.rs:259-290 | A conflict is a shared byte of one file, two handles and one exclusive lock; it is symmetric |
| `ByteRanges.ConflictBreaksExclusion` | crates/rustsmb-state/src/coordination.rs:259-290 | Granting a conflicting lock would always break the exclusion |
| `LockTables.StoreRunExclusion` | crates/rustsmb-state-memory/src/lib.rs:469-545 | Over every run of acquire and release calls, whatever ids the callers choose, no byte below the largest offset is under one handle's exclusive lock and any lock of another handle |
| `LockTables.TableRunExclusion` | crates/rustsmb-coord-raft/src/state.rs:171-215 | The same over every run of the per-file table, whose lists hold their own file's locks with distinct ids below the counter |
| `LockTables.TableAcquireEffect` | crates/rustsmb-coord-raft/src/state.rs:171-187 | A lock is granted exactly when no lock on any file conflicts, under the next id, and only that lock is added |
| `LockTables.TableReleaseEffect` | crates/rustsmb-coord-raft/src/state.rs:189-215 | A release removes exactly the matching locks on all files |
| `LockTables.TableReleasesByField` | crates/rustsmb-coord-raft/src/state.rs:189-215 | After a release for a session, handle, server or id, a lock is held exactly when it was held and that field differs |
| `LockTables.StoreReleasesByField` | crates/rustsmb-state-memory/src/lib.rs:489-545 | The same for the store, under every id its callers chose |
| `LockTables.RetainInOrder` | crates/rustsmb-coord-raft/src/state.rs:189-215 | The locks left in a list keep their order and number |
| `LockTables.AcquireAfterRelease` | crates/rustsmb-state-memory/src/lib.rs:469-545 | In every reachable state, after a release an acquire is granted by both tables if and only if every lock in its way was one of the released ones |
| `LockTables.TakenIds` | crates/rustsmb-state-memory/src/lib.rs:547-549 | The ids given out along a run are 1, 2, 3 and so on, each once |
| `LockTables.TableRefinesFlat` | crates/rustsmb-coord-raft/src/state.rs:171-215 | For every request sequence the per-file table gives the flat store's answers and ids and holds the same locks |
| `LockTables.SameLocksPerFile` | crates/rustsmb-state-memory/src/lib.rs:469-545 | File by file, the list holds exactly the flat store's locks of that file, once each |
| `LockTables.FlatAcquireEffect` | crates/rustsmb-server/src/handler.rs:4522-4540 | The handler's acquire takes an id first and is granted exactly when nothing held conflicts |
| `StateStore.MemoryStateStore.AcquireFileLock` | crates/rustsmb-state-memory/src/lib.rs:469-487 | The scan over held locks grants and stores as specified |
| `StateStore.MemoryStateStore.ReleaseFileLocks` | crates/rustsmb-state-memory/src/lib.rs:513-545 | Keeps exactly the locks the release does not match |
| `StateStore.MemoryStateStore.ApplyLockRequest` | crates/rustsmb-server/src/handler.rs:4522-4540 | Every lock request, with the id taken before an acquire, reaches the flat store's specified table and answer |
| `LockTables.CoordinationLocks.Apply` | crates/rustsmb-coord-raft/src/state.rs:171-215 | Every lock request reaches the specified table and answer |
| `LockTables.CoordinationLocks.Acquire` | crates/rustsmb-coord-raft/src/state.rs:171-187 | Scans and extends the list of the requested file as specified |
| `LockTables.CoordinationLocks.ReleaseMatching` | crates/rustsmb-coord-raft/src/state.rs:189-215 | Filters every file's list in place |
| `Leases.GrantedIsGreatest` | crates/rustsmb-state-memory/src/lib.rs:553-589 | The granted state is the greatest subset of the requested state that conflicts with no existing lease |
| `Leases.GrantedCases` | crates/rustsmb-state-memory/src/lib.rs:553-589 | The grant told by the whole list: nothing beside a writer, all when compatible, otherwise all but write caching |
| `Leases.CheckLeaseConflicts` | crates/rustsmb-state-redis/src/lib.rs:126-159 | The Redis loop, which lowers the grant as it goes, ends with the conflict list and grant of the other two stores |
| `Leases.CheckLeaseConflict` | crates/rustsmb-coord-raft/src/state.rs:257-300 | The Raft check finds exactly the conflicting leases of the file other than the requestor's, grants all when there are none, and otherwise the reduced state |
| `Leases.CheckExisting` | crates/rustsmb-state-memory/src/lib.rs:430-443 | The scan and reduction compute the conflict list and the grant |
| `Leases.ReduceLeaseState` | crates/rustsmb-state-memory/src/lib.rs:570-589 | The reduction loop computes the specified reduction |
| `Leases.LeasesForFile` | crates/rustsmb-coord-raft/src/state.rs:263-271 | Lists the file's leases, leaving out one key, each once |
| `Leases.ConflictsInOrder` | crates/rustsmb-state-memory/src/lib.rs:420-436 | The conflicts of two lists one after the other are their conflicts one after the other, so they come in listing order and each as often as listed |
| `Leases.ConflictsOfFile` | crates/rustsmb-state-memory/src/lib.rs:415-438 | The conflicts found are exactly the conflicting leases of the file, however the map lists them |
| `Leases.GrantOrderIndependent` | crates/rustsmb-state-memory/src/lib.rs:406-456 | The grant and the set of conflicts do not depend on the order in which the map lists the leases |
| `Leases.StoreKeepsOneWriter` | crates/rustsmb-state-memory/src/lib.rs:373-456 | Storing an entry keeps one writer per file if and only if no other lease on its file conflicts with it |
| `Leases.CreateCheckedKeepsOneWriter` | crates/rustsmb-state-memory/src/lib.rs:406-456 | A checked creation on the lease's own path keeps one writer per file for every listing order |
| `Leases.CheckedPathMatters` | crates/rustsmb-state-memory/src/lib.rs:406-456 | check_and_create_lease keeps one writer in every table if and only if the checked path is the entry's own or nothing is requested |
| `Leases.UncheckedCreate` | crates/rustsmb-state-memory/src/lib.rs:351-363 | create_lease keeps one writer in every table if and only if the stored state is 0 |
| `Leases.UpdateExactly` | crates/rustsmb-state-memory/src/lib.rs:373-379 | update_lease keeps one writer in every table that holds the lease in a given state if and only if the new state is 0, the old state has write caching, or the old state is not 0 and the new one has no write caching |
| `Leases.LoweringIsSafe` | crates/rustsmb-state-memory/src/lib.rs:373-379 | Every change to a subset state meets that condition |
| `Leases.LeaseRunOneWriter` | crates/rustsmb-state-memory/src/lib.rs:373-465 | Over every run of checked creations, such updates, deletions and server deletions, while one lease on a file has write caching every other lease on it has state 0 |
| `StateStore.MemoryStateStore.CheckAndCreateLease` | crates/rustsmb-state-memory/src/lib.rs:406-456 | The table and answer are those of the specification for the order in which the leases were listed |
| `StateStore.MemoryStateStore.CreateLease` | crates/rustsmb-state-memory/src/lib.rs:351-363 | Refuses a present key and otherwise stores without a check |
| `StateStore.MemoryStateStore.StoreAcknowledged` | crates/rustsmb-server/src/handler.rs:6133-6153 | A present lease is stored with the acknowledged state and the next epoch, nothing else changes |
| `StateStore.MemoryStateStore.DeleteLeasesForServer` | crates/rustsmb-state-memory/src/lib.rs:458-465 | Removes exactly the server's leases |
| `Leases.DeletedServer` | crates/rustsmb-state-memory/src/lib.rs:458-465 | After the deletion for a server exactly the leases with another server are there, unchanged |
| `Leases.DeletedKey` | crates/rustsmb-state-memory/src/lib.rs:381-388 | After the deletion of a key exactly the other leases are there, unchanged |
| `Leases.CheckAfterServerFailure` | crates/rustsmb-coord-raft/src/state.rs:166-169 | After a server's leases are deleted, a check names exactly the other servers' conflicting leases on the file, and can grant exactly when there is none |
| `Leases.StoredEntry` | crates/rustsmb-state-memory/src/lib.rs:373-456 | An update writes the entry under its key, a checked creation the entry with the granted state, and no other lease changes |
| `Leases.UncheckedEntry` | crates/rustsmb-state-memory/src/lib.rs:351-363 | create_lease is refused exactly for a present key and otherwise adds just its entry |
| `LeaseStates.BreakStateFalls` | crates/rustsmb-server/src/lease_break.rs:857-877 | The break-to state is a subset of the old state, and keeps write caching exactly for a request of handle caching without write caching |
| `LeaseStates.BreakStateKeeps` | crates/rustsmb-server/src/lease_break.rs:857-877 | The break-to state always keeps read caching, and handle caching exactly for a request of neither write nor handle caching |
| `Leases.BreakRemovesConflict` | crates/rustsmb-server/src/lease_break.rs:857-877 | A break to the calculated state removes the conflict if and only if a request for write caching meets no read caching and a request for handle caching alone meets no writer |
| `LeaseBreaks.RunInv` | crates/rustsmb-server/src/lease_break.rs:441-821 | In every reachable registry the pending, waiting and returned breaks fit together and stay below the id counter |
| `LeaseBreaks.BreakIdsAreFresh` | crates/rustsmb-server/src/lease_break.rs:621-696 | In every reachable registry the id given to a new break was never pending, waited for, returned or logged |
| `LeaseBreaks.CounterGrows` | crates/rustsmb-server/src/lease_break.rs:641-641 | Along every run the counter never goes back |
| `LeaseBreaks.LeavesExactlyOnce` | crates/rustsmb-server/src/lease_break.rs:621-821 | A break is parked at most once and leaves the map exactly once, by acknowledgment, expiry or waiter timeout; a waiter that returned has left |
| `LeaseBreaks.AcknowledgedWithinBreakTo` | crates/rustsmb-server/src/lease_break.rs:730-777 | In every run an acknowledged result is a subset of the break-to state |
| `LeaseStates.ReadLeaseStays` | crates/rustsmb-server/src/lease_break.rs:857-877 | Read caching alone is its own break-to state for every request |
| `LeaseBreaks.BreakResultKeepsOneWriter` | crates/rustsmb-server/src/handler.rs:3124-3143 | For every result of a break, with or without acknowledgment: the state stored after a break computed by calculate_break_state is a subset of the old state and keeps one writer per file, if the lease still holds at least the old state |
| `LeaseBreakResults.BreakStarts` | crates/rustsmb-server/src/lease_break.rs:441-700 | In every run a break is refused, failed, done at once or started by the last registration of its target, the send and the lease state or oplock level |
| `LeaseBreakResults.NoBreakIsLost` | crates/rustsmb-server/src/lease_break.rs:441-821 | In every run a break once started stays sent, waited for or returned, however the run goes on |
| `LeaseBreakResults.ScanIsOnTime` | crates/rustsmb-server/src/lease_break.rs:792-821 | In every run a break parked at t and still pending is taken by a scan exactly if it is a lease break and t plus the timeout has been reached |
| `LeaseBreakResults.TakenOutExactly` | crates/rustsmb-server/src/lease_break.rs:544-821 | Exactly the acknowledgments for it, allowed or not, a late enough scan and its waiter's timer take a pending break out |
| `LeaseBreakResults.WaiterLearnsHowItEnded` | crates/rustsmb-server/src/lease_break.rs:441-821 | However the run goes on, the waiter of a break returns the result of the step that took it out: the allowed state, a lost connection or a timeout |
| `LeaseBreakResults.AcknowledgmentReply` | crates/rustsmb-server/src/lease_break.rs:730-789 | The client is told whether its acknowledgment was allowed or no break was pending |
| `LeaseEffects.CreationBreaks` | crates/rustsmb-server/src/handler.rs:3076-3104 | A creation gives its handler a break exactly for the other leases on the file that conflict, are on the same server and would change |
| `LeaseEffects.TakenUpOnce` | crates/rustsmb-server/src/handler.rs:3087-3121 | A reported conflict is taken up once, for the calculated state, and is under way exactly when the registry waits for an acknowledgment |
| `LeaseEffects.RegistryRuns` | crates/rustsmb-server/src/handler.rs:3065-3172 | The registry of every run of the protocol is a run of the registry, so its results hold there |
| `LeaseEffects.BreakResultStored` | crates/rustsmb-server/src/handler.rs:3121-3172 | A finished break leaves the reported lease with the acknowledged state, or nothing without an answer, and the next 16-bit epoch; no other lease changes |
| `LeaseEffects.AcknowledgmentStored` | crates/rustsmb-server/src/handler.rs:6127-6153 | In every run an acknowledgment taken for a lease in the table ends up there with the next epoch; for a lease that is gone nothing is stored |
| `LeaseEffects.DeletionsReach` | crates/rustsmb-server/src/coordination.rs:398-401 | Deletions take exactly the key or the server's leases out of the protocol's table and touch no break |
| `LeaseProtocol.OneWriterIffStoresFit` | crates/rustsmb-server/src/handler.rs:3065-3172 | Over every run of creations, deletions, breaks, acknowledgments and stored results as one protocol, one writer per file holds in every state if and only if each stored result conflicts with no other lease it meets on the file |
| `LeaseProtocol.SafeStoresKeepOneWriter` | crates/rustsmb-server/src/handler.rs:3145-3164 | One writer holds in every state if each store finds its lease, on its file, in a state from which the change is a safe update |
| `LeaseProtocol.StoredWithinHeld` | crates/rustsmb-server/src/handler.rs:6127-6153 | In every run what either handler is about to store for a lease is a subset of a state that the lease once held |
| `LeaseProtocol.EveryBreakIsAcknowledged` | crates/rustsmb-server/src/handler.rs:3091-3121 | In every run a break that a handler begins waits for an acknowledgment, since a lease that would need none is left as it is |
| `LeaseProtocol.StaleResultRun` | crates/rustsmb-server/src/handler.rs:3122-3164 | A run of the protocol that has one writer in every state until the acknowledged result of a break is stored, after its lease was closed and opened again beside a new writer |
| `LeaseAnswers.ToldSafeIffAnswersSafe` | crates/rustsmb-server/src/handler.rs:3202-3229 | Over every run, what each client was told stays safe from what is stored for it if and only if each answer raised by the second look at the leases is |
| `LeaseAnswers.ToldStatesCompatible` | crates/rustsmb-server/src/handler.rs:3202-3229 | Over every run in which the stored results fit and the raised answers are safe, no two told states on a file conflict |
| `LeaseAnswers.ToldOneWriter` | crates/rustsmb-server/src/handler.rs:3202-3229 | States told that are safe from stored ones have one writer per file when the stored ones do |
| `LeaseAnswers.RaisedAnswerSafeExactly` | crates/rustsmb-server/src/handler.rs:3212-3229 | While what was granted is still stored, the answer with the requested state is safe if and only if it is what was granted |
| `LeaseAnswers.RaisedAnswerRun` | crates/rustsmb-server/src/handler.rs:3065-3229 | A run in which the table keeps one writer but two clients are told conflicting states, after the second look has raised an answer |
| `LeaseEffects.SecondLookExactly` | crates/rustsmb-server/src/handler.rs:6547-6557 | The second look passes exactly when the conflict rule does, no write caching is asked for beside another lease and the request is not for nothing beside a writer |
| `LeaseEffects.LookedAtAgain` | crates/rustsmb-server/src/handler.rs:3202-3229 | A creation gets one second look exactly when it met a conflict on its own server |
| `LeaseEffects.OthersAreNotTold` | crates/rustsmb-server/src/handler.rs:3066-3229 | What a client was told changes only by actions about its own lease or with the deletion of its server's leases |
| `LeaseBreaks.LeaseBreakRegistry.BeginBreak` | crates/rustsmb-server/src/lease_break.rs:621-682 | The first half of a break reaches the specified registry and reply |
| `LeaseBreaks.LeaseBreakRegistry.ParkBreak` | crates/rustsmb-server/src/lease_break.rs:684-696 | Records the break with its deadline |
| `LeaseBreaks.LeaseBreakRegistry.HandleAcknowledgment` | crates/rustsmb-server/src/lease_break.rs:730-777 | Search, removal and subset check reach the specified registry and reply; an invalid acknowledgment also ends the break |
| `LeaseBreaks.LeaseBreakRegistry.ExpireBreak` | crates/rustsmb-server/src/lease_break.rs:792-821 | Removes an expired lease break and tells its waiter |
| `LeaseBreaks.LeaseBreakRegistry.ProcessExpiredBreaks` | crates/rustsmb-server/src/lease_break.rs:792-821 | Ends exactly the lease breaks past their deadline, as a sequence of expiry steps, and returns their keys |
| `LeaseBreaks.LeaseBreakRegistry.FinishWait` | crates/rustsmb-server/src/lease_break.rs:698-708 | The waiter returns what its channel holds |
| `LeaseBreaks.LeaseBreakRegistry.GiveUpWaiting` | crates/rustsmb-server/src/lease_break.rs:709-718 | The waiter's own timeout takes the break out |
| `LeaseBreaks.LeaseBreakRegistry.UpdateOplockLevel` | crates/rustsmb-server/src/lease_break.rs:599-603 | Changes the level of a registered handle only |
| `LeaseBreaks.LeaseBreakRegistry.UnregisterTarget` | crates/rustsmb-server/src/lease_break.rs:239-251 | Removes the registration and tells whether there was one |
| `Sessions.NothingLeft` | crates/rustsmb-session/src/manager.rs:121-158 | After a deletion no session and no tree is left under the id, and no handle either, if and only if the id is not 0 or no handle of session 0 is preserved |
| `Sessions.HandlesAfterDeletion` | crates/rustsmb-state/src/types.rs:308-344 | Durable and persistent handles survive with session and tree 0 and a deadline from their own or the default timeout, an earlier deadline kept; the session's other handles go; handles of other sessions are unchanged |
| `Sessions.OthersAfterDeletion` | crates/rustsmb-session/src/manager.rs:121-158 | Every other session and every tree of another session is there afterwards exactly when it was, with the same record, for session 0 too |
| `Sessions.LeasesAfterDeletion` | crates/rustsmb-session/src/manager.rs:121-158 | Exactly the leases named by removed handles go, the others unchanged, and no handle appears |
| `Sessions.DeletionKeepsOneWriter` | crates/rustsmb-session/src/manager.rs:121-158 | The deletion keeps one writer per file |
| `Sessions.SessionManager.DeleteSession` | crates/rustsmb-session/src/manager.rs:121-158 | The loops over handles and trees and the final delete reach exactly the specified store |
| `Sessions.SessionManager.DropHandles` | crates/rustsmb-session/src/manager.rs:124-146 | The handle loop, in any listing order, leaves the specified handles and leases |
| `Sessions.SessionManager.DropHandle` | crates/rustsmb-state/src/types.rs:308-344 | One handle is prepared for reconnection or deleted with its lease |
| `Sessions.SessionManager.DropTrees` | crates/rustsmb-session/src/manager.rs:148-154 | The tree loop removes exactly the session's trees |
| `StateStore.MemoryStateStore.RefreshSession` | crates/rustsmb-state-memory/src/lib.rs:109-126 | Last access and expiry of a present session change, nothing else |
| `StateTypes.RefreshMovesTimes` | crates/rustsmb-state-memory/src/lib.rs:109-126 | A refresh sets last access to now and expiry to now plus the lifetime for the one session and changes nothing else |
| `StateStore.MemoryStateStore.HandlesBySession` | crates/rustsmb-state-memory/src/lib.rs:217-230 | Lists the session's handles, each once |
| `StateStore.MemoryStateStore.TreesBySession` | crates/rustsmb-state-memory/src/lib.rs:162-175 | Lists the session's trees |
| `CachedStore.CachedRunAgrees` | crates/rustsmb-state-cached/src/lib.rs:168-398 | From any coherent start every run of the cached store returns the bare store's answers and leaves its records, for any evictions, clock and epoch changes |
| `CachedStore.CallAgrees` | crates/rustsmb-state-cached/src/lib.rs:168-398 | Each call answers like the bare store and keeps every cached entry equal to the stored record |
| `CachedStore.EventCoherent` | crates/rustsmb-state-cached/src/cache.rs:118-141 | Evictions and epoch changes keep that and touch no record |
| `CachedStore.Listings` | crates/rustsmb-state-memory/src/lib.rs:128-248 | The list queries give exactly the stored records with the asked-for user, session, share and path |
| `CacheLifetimes.CachedForItsLifetime` | crates/rustsmb-state-cached/src/cache.rs:55-76 | A record stored or read at t is answered from the cache up to t plus the lifetime and no longer, while no call names it, it is not evicted and the epoch stays |
| `CacheLifetimes.LookupAnswer` | crates/rustsmb-state-cached/src/lib.rs:187-211 | A lookup is answered by a hit of the cache, also one the store would not give, and otherwise by the store |
| `CacheLifetimes.NoHitOutlivesItsTtl` | crates/rustsmb-state-cached/src/cache.rs:55-76 | In every run from an empty cache a hit comes at most a lifetime after a call that named the record |
| `CachedStateStore.Store.PutSession` | crates/rustsmb-state-cached/src/lib.rs:168-225 | Bulk store, cache and answer after the call are those of the specification, with and without a cache |
| `CachedStateStore.Store.GetSession` | crates/rustsmb-state-cached/src/lib.rs:187-211 | Bulk store, cache and answer after the call are those of the specification, with and without a cache |
| `CachedStateStore.Store.DeleteSession` | crates/rustsmb-state-cached/src/lib.rs:227-235 | Bulk store, cache and answer after the call are those of the specification, with and without a cache |
| `CachedStateStore.Store.RefreshSession` | crates/rustsmb-state-cached/src/lib.rs:237-250 | Bulk store, cache and answer after the call are those of the specification, with and without a cache |
| `CachedStateStore.Store.PutTree` | crates/rustsmb-state-cached/src/lib.rs:262-270 | Bulk store, cache and answer after the call are those of the specification, with and without a cache |
| `CachedStateStore.Store.GetTree` | crates/rustsmb-state-cached/src/lib.rs:272-296 | Bulk store, cache and answer after the call are those of the specification, with and without a cache |
| `CachedStateStore.Store.DeleteTree` | crates/rustsmb-state-cached/src/lib.rs:306-316 | Bulk store, cache and answer after the call are those of the specification, with and without a cache |
| `CachedStateStore.Store.PutHandle` | crates/rustsmb-state-cached/src/lib.rs:318-371 | Bulk store, cache and answer after the call are those of the specification, with and without a cache |
| `CachedStateStore.Store.GetHandle` | crates/rustsmb-state-cached/src/lib.rs:335-358 | Bulk store, cache and answer after the call are those of the specification, with and without a cache |
| `CachedStateStore.Store.DeleteHandle` | crates/rustsmb-state-cached/src/lib.rs:390-399 | Bulk store, cache and answer after the call are those of the specification, with and without a cache |
| `CachedStateStore.LocalCache.GetSession` | crates/rustsmb-state-cached/src/cache.rs:143-155 | The lookup returns valid entries only and drops invalid ones |
| `CachedStateStore.LocalCache.GetTree` | crates/rustsmb-state-cached/src/cache.rs:200-212 | The lookup returns valid entries only and drops invalid ones |
| `CachedStateStore.LocalCache.GetHandle` | crates/rustsmb-state-cached/src/cache.rs:172-183 | The lookup returns valid entries only and drops invalid ones |
| `CacheEpochs.HitsAreRecent` | crates/rustsmb-state-cached/src/lib.rs:141-153 | In every run of the cached store whose epoch has not returned to an earlier value, a hit in any table was cached after the last epoch change |
| `CacheEpochs.NoStaleHit` | crates/rustsmb-state-cached/src/cache.rs:51-76 | The same for one table and any steps |
| `CacheEpochs.StaleHitIffEpochReturned` | crates/rustsmb-state-cached/src/cache.rs:123-138 | For given epoch changes, whichever of set_epoch and invalidate_all they are, some run with them has a stale hit if and only if the last epoch occurred before |
| `CacheEpochs.ListenersStaleHit` | crates/rustsmb-server/src/coordination.rs:354-430 | The same for the changes the two listeners make on any sequence of their events |
| `CacheEpochs.AscendingEventsProtect` | crates/rustsmb-server/src/coordination.rs:354-430 | Along the listeners' events the epoch only grows if and only if every announced epoch is above the local one as it arrives; then it never returns |
| `CacheEpochs.ListenersReturn` | crates/rustsmb-server/src/coordination.rs:354-430 | A run of the listeners with a stale hit: an entry cached after two failures is found again, in epoch 3, after an announced epoch 2 |
| `Credits.BalanceWithinMax` | crates/rustsmb-session/src/credits.rs:105-160 | Under every interleaving of the load, swap and counter steps the balance stays within the maximum |
| `Credits.CreditsConserved` | crates/rustsmb-session/src/credits.rs:105-160 | Under every interleaving granted minus consumed is the balance once pending counter updates are counted, and exactly so when all threads rest |
| `Credits.CallsAreAtomic` | crates/rustsmb-session/src/credits.rs:105-160 | Linearisability under every interleaving: the history holds the calls of the schedule in order; each thread goes through call, effect with the call's argument, and return of the effect's answer; the effects made alone, one after the other, give every answer and the balance |
| `Credits.EachCallTakesEffect` | crates/rustsmb-session/src/credits.rs:105-160 | Under every interleaving the effects of a thread are its calls, one each and in order, all of them exactly when the thread is not before its effect |
| `Credits.ConsumeTakesCharge` | crates/rustsmb-session/src/credits.rs:105-129 | consume succeeds exactly when the balance is at least 1 and at least the charge; it takes and returns the charge, 1 for a charge of 0; a refusal takes nothing |
| `Credits.EffectsMoveCredits` | crates/rustsmb-session/src/credits.rs:105-160 | Under every interleaving each effect in the history takes exactly its charge, or adds exactly what was asked for up to the maximum |
| `Credits.AdaptiveGrantExactly` | crates/rustsmb-session/src/credits.rs:166-205 | The exact adaptive grant from configuration, deficit, request and doubling, capped by the headroom alone: the 16-bit saturations never show |
| `Credits.FixedGrantExactly` | crates/rustsmb-session/src/credits.rs:166-205 | The fixed grant is the configured amount or, if that is less, the headroom |
| `Credits.AdaptiveGrantFloor` | crates/rustsmb-session/src/credits.rs:166-205 | Below the maximum an adaptive grant is at least 1, at least a quarter of the deficit more, at least the request as far as there is room, and never beyond the room |
| `Credits.CyclesLeaveCredit` | crates/rustsmb-session/src/credits.rs:105-205 | With adaptive grants every sequence of consume-then-grant cycles from at least one credit ends with at least one |
| `Credits.UnitCyclesRise` | crates/rustsmb-session/src/credits.rs:166-205 | Cycles charging one credit never lower the balance and raise a low one by at least one credit each |
| `Credits.UnitCyclesSettle` | crates/rustsmb-session/src/credits.rs:166-205 | After half the maximum of such cycles the balance is at least max/2 - 2 and stays there |
| `Credits.StarvationFree` | crates/rustsmb-session/src/credits.rs:166-205 | No cycle from any positive balance ends empty if and only if grants are adaptive or the fixed grant is at least 1 |
| `Credits.ResetKeepsConservation` | crates/rustsmb-session/src/credits.rs:251-255 | A reset keeps conservation if and only if the balance already was the initial one |
| `Credits.CreditManager.ConsumeCredits` | crates/rustsmb-session/src/credits.rs:105-129 | The swap loop takes at least one credit, all or nothing, however many swaps fail first |
| `Credits.CreditManager.GrantUpTo` | crates/rustsmb-session/src/credits.rs:134-160 | The swap loop grants up to the room left, however many swaps fail first |
| `Credits.CreditManager.Calculate` | crates/rustsmb-session/src/credits.rs:166-205 | The accumulated grant is the specified one, with 16-bit saturation |
| `AsyncRequests.RunInv` | crates/rustsmb-session/src/async_request.rs:170-362 | In every reachable tracker pending and notifier keys are equal, the limit holds, each message maps to a pending request of that message, and the ids given out are the pending ones and those completed exactly once, with none in both |
| `AsyncRequests.RegisterInv` | crates/rustsmb-session/src/async_request.rs:170-210 | A registration succeeds exactly below the limit, under an id never pending or completed before |
| `AsyncRequests.IdsNeverReused` | crates/rustsmb-session/src/async_request.rs:170-210 | Along every run the id counter never goes back |
| `AsyncRequests.RunCovered` | crates/rustsmb-session/src/async_request.rs:170-287 | Every pending request is found by its message id in every state of a run if and only if no accepted registration reuses a message id still pending |
| `AsyncRequests.RegisterCovered` | crates/rustsmb-session/src/async_request.rs:170-210 | One registration keeps all requests reachable if and only if its message id is not pending |
| `AsyncRequests.CancelMessageEffect` | crates/rustsmb-session/src/async_request.rs:284-298 | A CANCEL ends exactly the request of its message with one cancelled completion, and does nothing for any other message |
| `AsyncRequests.RegisterThenCancel` | crates/rustsmb-session/src/async_request.rs:170-298 | Registering a fresh message and cancelling it restores all tables and leaves one cancelled completion |
| `AsyncRequests.CancelScopeEffect` | crates/rustsmb-session/src/async_request.rs:301-343 | Cancelling a session, tree or file removes exactly its requests, completes each once as cancelled, in listing order, and leaves the rest alone |
| `AsyncRequests.CancelScopeByField` | crates/rustsmb-session/src/async_request.rs:301-345 | Which requests stay after each scope, by session, by session and tree, and by file id |
| `AsyncRequests.CompleteEffect` | crates/rustsmb-session/src/async_request.rs:246-281 | Completing an id ends that request alone with one completion of the given status; an unknown id does nothing |
| `AsyncRequests.CancelEffect` | crates/rustsmb-session/src/async_request.rs:290-298 | Cancelling an id does the same with the cancelled mark and status |
| `AsyncRequests.CleanupEffect` | crates/rustsmb-session/src/async_request.rs:348-362 | The cleanup ends exactly the requests past their timeout, each with one timeout completion |
| `AsyncRequests.AsyncRequestTracker.RegisterWithTimeout` | crates/rustsmb-session/src/async_request.rs:170-210 | Reaches the specified tracker and id |
| `AsyncRequests.AsyncRequestTracker.RegisterWithFile` | crates/rustsmb-session/src/async_request.rs:213-229 | The same with the file set |
| `AsyncRequests.AsyncRequestTracker.CompleteRequest` | crates/rustsmb-session/src/async_request.rs:246-279 | Removes the request from all three tables and delivers its completion |
| `AsyncRequests.AsyncRequestTracker.CancelRequest` | crates/rustsmb-session/src/async_request.rs:290-298 | Marks and completes the request |
| `AsyncRequests.AsyncRequestTracker.CancelByMessageId` | crates/rustsmb-session/src/async_request.rs:284-287 | Finds the request by message and cancels it |
| `AsyncRequests.AsyncRequestTracker.CancelScope` | crates/rustsmb-session/src/async_request.rs:301-343 | Collects and cancels the scope's requests and returns them in order |
| `AsyncRequests.AsyncRequestTracker.CleanupExpired` | crates/rustsmb-session/src/async_request.rs:348-362 | Collects and ends the expired requests and returns them in order |
| `Connection.RunInv` | crates/rustsmb-session/src/connection.rs:200-221 | Every reachable connection is within its session limit and has a consistent tracker |
| `Connection.RemovedSessionIsGone` | crates/rustsmb-session/src/connection.rs:213-221 | Removing a session takes off its id and exactly its pending requests, each completed once as cancelled, and keeps the others |
| `Connection.AddedSession` | crates/rustsmb-session/src/connection.rs:200-211 | An accepted session is added to the others and makes a negotiated connection active; a refused one changes nothing |
| `Connection.AddThenRemove` | crates/rustsmb-session/src/connection.rs:200-221 | Removing a session just added gives back sessions, requests and state |
| `Connection.DisconnectingStays` | crates/rustsmb-session/src/connection.rs:187-221 | Once disconnecting, a connection stays so whatever sessions and requests come and go |
| `Connection.TrackerRuns` | crates/rustsmb-session/src/connection.rs:213-221 | The tracker of every run of a connection is a run of the tracker, with one cancellation for each removed session |
| `Connection.RunTellsSessions` | crates/rustsmb-session/src/connection.rs:174-221 | In every state of a run after negotiation the state is SessionActive exactly when there is a session, if and only if each negotiation finds no session and each explicit activation finds one |
| `Connection.StepTellsSessions` | crates/rustsmb-session/src/connection.rs:174-221 | The same for one step |
| `Connection.SmbConnection.AddSessionId` | crates/rustsmb-session/src/connection.rs:200-210 | Adds the session exactly below the limit |
| `Connection.SmbConnection.RemoveSessionId` | crates/rustsmb-session/src/connection.rs:213-221 | Reaches the specified connection, cancelling through the tracker |
| `Connection.SmbConnection.GrantCredits` | crates/rustsmb-session/src/connection.rs:253-256 | Grants what the calculation gives on the present balance |

## Left out

- Integer width of ids, inodes, reference counts, epochs and totals: unbounded here, so wrap-around at 2^32 or 2^64 is not captured. Credits, lock offsets, lease flags, DER lengths and the ends computed from them, lease epochs in the protocol and the byte count of a write have their source's width.
- MemoryBackend.Backend.Write: the offset plus length is a sum of natural numbers and the buffer is as long as needed, because memory limits are not modelled.
- MemoryTree: the tree is a value that methods rebuild and store back, because a tree of mutable references adds only aliasing that Rust's ownership already excludes.
- Metadata of nodes (mode, owner, timestamps, extended attributes), byte locks of the memory backend, stat, truncate, readdir, readlink and statfs: they would only add easy members.
- Spnego.InitRoundTrip and RespRoundTrip: the conditions are exact for a single length and for the wrapper; a list, token or inner length that breaks them is read on from inside the token, so the outcome depends on its bytes.
- Authentication above the codec (NTLM, key derivation, signing, encryption, pre-authentication hashes): it rests on hash functions.
- Redis apart from check_lease_conflicts: foreign calls; its lock rule differs from the one modelled (crates/rustsmb-state-redis/src/lib.rs:162-181), so no agreement is claimed.
- Raft consensus and the matching of proposals and responses: an unseen library; the state machine's lock and lease requests are modelled as applied in order.
- LocalBackend apart from its path normalisation: operating-system calls.
- LeaseBreaks: lease and oplock breaks share one map with tagged targets, because their ids come from one counter; initiate_oplock_break_nowait only takes an id, like a break whose event was not sent, and update_oplock_level is a registration.
- LeaseBreaks.BreakResultKeepsOneWriter: the premise on the stored state is sufficient; `Leases.UpdateExactly` has the exact condition for any stored state, and `LeaseProtocol.OneWriterIffStoresFit` the one for runs.
- LeaseProtocol: the breaks of one creation may run in any order, while the handler makes them one after the other; conflicts on other servers are not broken, as in the source.
- LeaseAnswers: an answer counts from the creation on, the second look may come at any time after it, and a state stored after a break counts as told, also when the client did not acknowledge.
- SpnegoOverflow: data is shorter than 2^63 bytes, as every slice is, so sums of an offset and a header size do not overflow; with wrapping sums only the offsets of the loops are modelled, not the values read.
- One-line setters of the stores and registries have no row.
- CachedStore: LRU order is not modelled, because evictions may drop any entries at any time; the list queries and locks pass through the cache unchanged.
- CachedStore.CachedRunAgrees: this server is the only writer of the bulk store, because entries written by others are seen only after an epoch change or expiry.
- Sessions.SessionManager.DeleteSession: the store's calls do not fail, because the memory store has no error path there.
- AsyncRequests: operation type, command and response data of a request are carried along unchanged by the source and are not modelled.
- Connection: dialect, client identity, activity times and compound requests.
- Headers, command structures, status tables, dialect selection, compound offsets and configuration: generated or easy.
