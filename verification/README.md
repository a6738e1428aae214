# AmorphDB's distributed layer and ARI front end: a verified model

This Dafny project models the parts of AmorphDB where the hard behaviour is, and proves what
they promise on every input, every run or every interleaving. `dafny verify dfyconfig.toml`
checks all of it.

The model follows the shape of the Go code. What the code does to objects in place is a class
whose methods are proved against value-level specification functions; what it computes in loops
over buffers, readers, slices and maps is a method with loop invariants; a critical section is
one atomic step of a state machine, and a protocol is a run of such steps in any order. The
theorems are lemmas about the specification functions and the runs. Map iteration is always an
arbitrary order.

- **Path authority** (`Directory`, `Authority`, `AuthorityManagement`): the last-write-wins
  directory, longest-prefix lookup, announcements, delegation and splitting, and elections that
  every node runs alone.
- **Mesh runtime** (`Replication`, `ReplicationManagement`, `GossipTable`, `GossipManagement`,
  `Heartbeat`, `HeartbeatManagement`): queues read in one lock section and trimmed in another,
  the peer table with its sampling, the failure detector and the clock offset.
- **Wire formats** (`Wire`, `TaggedFields`, `PayloadReader`, `Messages`, `ChildrenCodec`,
  `ByteBuffer`, `GossipCodec`, `AuthCodec`, `Framing`): tag-loop decoders over a cursor, codecs
  over a preallocated buffer, and the client's framing over a connection that delivers any
  non-empty pieces.
- **ARI** (`AriLexer`, `AriAst`, `AriParser`, `AriParsing`, `AriRoundTrip`, `AriSections`,
  `AriCustomTypes`): the lexer, the recursive-descent parser with error recovery, what sections
  and custom types take, and what printing and parsing preserve.
- **Filters** (`Filters`): the cache of parsed filters against the filters stored.

Byte strings stand for Go strings on the wire, and characters for the bytes of ARI text.
Timestamps are integers. An index or slice past its bounds, which in Go is a panic, is a value
of the model (`Panics`, `Crash`) or shown impossible.

Where the code and what it is for part ways, the code is modelled as it is, a concrete case is
proved, and the exact condition with it:

- Directories converge precisely when no path has two newest entries (`Directory.ConvergesIff`);
  a `Set` survives the next gossip precisely when nothing newer was held for its path, and is
  undone otherwise (`Directory.SetSurvivesIff`, `Directory.StaleSetUndone`).
- An announcement is compared with the longest matching entry, not its own path's, so for
  nested paths the order of arrival can decide (`Authority.NestedOrderMatters`). Nodes agree
  precisely when every path is announced later than the paths above it, and its newest
  announcement is unique (`Authority.AnnouncementsAgreeIff`).
- Elections promote at most one node, in every run, precisely when no two nodes can see
  candidates that elect them. Nothing in the code makes nodes see the same subscribers, and two
  that see only themselves both promote themselves (`Authority.OnePromoterIff`,
  `Authority.SplitViewsPromoteTwo`); nodes with distinct IDs and one candidate set are safe
  (`Authority.AtMostOnePromoted`).
- Cancelling an election does not stop it: its node may still announce itself over the newer
  authority, precisely when it is the one elected (`Authority.CancelledElectionIff`).
- A split is checked against the parent path only, so it can take paths another node holds,
  whether or not they lie under the parent (`Authority.SplitTakesOthers`). All it takes was held
  by the node itself precisely when the node held the sub-path (`Authority.SplitTakesOwnIff`).
- Replication retires a whole batch as soon as one subscriber took any of it. No write is ever
  retired unseen by its own subscribers precisely when all writes of the batch, and over all runs
  all writes to the path, are recorded under one set of subscribers
  (`Replication.SafeToRetireIff`, `Replication.NeverLosesIff`).
- Gossip about the node itself is taken like any other: its own entry is untouched precisely when
  it was seen within a minute or is not spoken of (`GossipTable.UntouchedIff`), and a peer can
  make it record that it left (`GossipTable.SelfOverwritten`).
- A gossip round loses precisely the updates queued between encoding and clearing
  (`GossipTable.RoundConservesIff`).
- `readString` and `readValue` refuse an empty string or value at the end of a payload, so a
  READ of a path with an empty last segment, or a REGISTER with an empty token, does not come
  back (`Messages.ReadRoundTrip`, `Messages.RegisterRoundTrip`).
- The AUTH_RESPONSE and AUTH_CHALLENGE decoders index past the same inputs: precisely those in
  which a prefix they do not check for is cut off, such as an identity that fills the message
  (`AuthCodec.ResponsePanicsIff`, `AuthCodec.ChallengePanicsIff`, `AuthCodec.FilledInputPanics`).
  A challenge with leading zeroes in its key does not re-encode to the same bytes
  (`AuthCodec.ChallengeCanonical`).
- The summed skews wrap at 64 bits; the offset is the average precisely when they do not
  (`Heartbeat.AverageExactIff`, `Heartbeat.OverflowedOffset`).
- The lexer slices past its end precisely on the texts that end on a backslash inside a string
  or a regex, which one look along the characters decides (`AriLexer.TokenizableIff`).
- The level of a section's body is never compared with the column of its header, so a line
  written beside a section without a body becomes its child (`AriSections.SiblingBecomesChild`),
  and a line left of several open sections becomes a child of the innermost
  (`AriSections.LeftLineBecomesGrandchild`). Everything a section takes, at any depth, lies right
  of every header above it precisely when the first line of the section and of every section
  nested in it lies right of its own header (`AriSections.NestsThroughoutIff`).
- Without a gossip manager, announcing, delegating and splitting report an error after they have
  changed the directory (`AuthorityManagement.AuthorityManager.Propagate`).
- `as` takes any name but a keyword, so the built-in type in `as date` is left unread
  (`AriCustomTypes.OutputBackIff`).
- A regex pattern keeps its slashes in its text and prints with another pair, so it never comes
  back (`AriRoundTrip.RegexNeverBack`); `AriRoundTrip.ComesBackIff` says which fields do.
- A filter text with more than one `?=` is stored as an expression no evaluation supports, and
  can make the answer depend on map order; precisely when, `Filters.OrderIrrelevantIff` and
  `Filters.AlwaysIrrelevantIff` say.

## Model

| member | source | states |
|---|---|---|
| Directory.LatestMergeAll | internal/directory/directory.go:106-132 | after any merges a directory holds, for each path ever seen, a newest entry seen for it, and nothing else |
| Directory.Convergence | internal/directory/directory.go:106-132 | directories that merge the same set of entries, in any order, batching and duplication, end equal |
| Directory.ConvergesIff | internal/directory/directory.go:106-132 | all deliveries of a set of entries agree if and only if no path has two different newest entries |
| Directory.MergeBatches | internal/directory/directory.go:106-132 | merging in batches is merging once |
| Directory.RemergeChangesNothing | internal/directory/directory.go:88-132 | merging a snapshot of what was already seen changes nothing |
| Directory.ExchangeConverges | internal/directory/directory.go:88-132 | two directories that merge each other's snapshots, listed in any order, become equal and stay so |
| Directory.SetIsMergeIff | internal/directory/directory.go:34-43 | a local set acts like a merge exactly when it overwrites nothing at least as new and different |
| Directory.StaleSetUndone | internal/directory/directory.go:34-132 | a set with an older timestamp is undone by merging a snapshot taken before it |
| Directory.SetSurvivesIff | internal/directory/directory.go:34-132 | a locally set entry survives such a merge if and only if nothing newer was held for its path |
| Directory.SetKeepsLatestIff | internal/directory/directory.go:34-43 | a local set keeps a directory the latest of what it has seen if and only if nothing newer is held for the path |
| Directory.RunKeepsLatestIff | internal/directory/directory.go:34-132 | over any run of deliveries, gossip and local sets among any number of nodes, every directory stays the latest of what reached it, throughout, if and only if no set is behind what its node holds |
| Directory.MeshConvergence | internal/directory/directory.go:34-132 | after any such run, nodes that learned of the same entries hold equal directories |
| Directory.LookupIsBest | internal/directory/directory.go:46-77 | trying the path, then each parent, finds the longest matching entry, finds nothing only if nothing matches, and no two entries tie |
| Directory.PathDirectory.Set | internal/directory/directory.go:34-43 | replaces exactly the entry of the given path |
| Directory.PathDirectory.Get | internal/directory/directory.go:46-77 | whatever order the map loop takes, the result is the longest-prefix match, and the entry of the empty path answers only for itself |
| Directory.PathDirectory.Delete | internal/directory/directory.go:80-85 | removes exactly the given path |
| Directory.PathDirectory.Snapshot | internal/directory/directory.go:88-103 | lists every entry once, in an arbitrary order |
| Directory.PathDirectory.Merge | internal/directory/directory.go:106-132 | the loop performs the last-write-wins merge of its whole list |
| Authority.ElectMostSenior | internal/mesh/authority.go:327-354 | the winner is a candidate to whom no candidate is senior by creation time, then ID; there is none only without candidates |
| Authority.SameWinner | internal/mesh/authority.go:327-354 | two winners for one candidate set bear the same ID, whatever the list orders |
| Authority.RunKeepsPromotions | internal/mesh/authority.go:283-324 | over every interleaving of election sections and announcements, a node promotes itself only when the most senior of candidates it saw for that path bears its ID |
| Authority.OnePromoterIff | internal/mesh/authority.go:283-354 | whatever subscribers each node may see, at most one ever promotes itself, in every run, if and only if no two can see candidates that elect them |
| Authority.AtMostOnePromoted | internal/mesh/authority.go:283-354 | so nodes with distinct IDs that see one candidate set, in any order, never both promote themselves |
| Authority.SplitViewsPromoteTwo | internal/mesh/authority.go:283-324 | and two nodes that each see only themselves have a run in which both do |
| Authority.RunKeepsOneOpen | internal/mesh/authority.go:283-324 | on every node of every run, an incomplete election is the recorded one, so at most one per path is open |
| Authority.CancelledElectionIff | internal/mesh/authority.go:247-324 | on any node, an announcement that cancels an open election takes effect, and the election then overrides it if and only if it elects the node; otherwise no promotion is possible and the announcement stays |
| Authority.CancelledElectionStillPromotes | internal/mesh/authority.go:247-324 | the simplest cancelled election that does: a node that is its own only candidate |
| Authority.AnnouncementIsMergeIff | internal/mesh/authority.go:247-265 | processing an announcement is merging it unless only an ancestor's entry turns it away |
| Authority.RisingIsMerge | internal/mesh/authority.go:247-265 | when paths are announced later than their ancestors, processing in any order is the last-write-wins merge |
| Authority.AnnouncementsAgreeIff | internal/mesh/authority.go:247-265 | all orders of processing a set of announcements agree if and only if each path's newest is unique and newer than every announcement above it |
| Authority.NestedOrderMatters | internal/mesh/authority.go:247-265 | two announcements, for a path and its parent, give different directories in the two orders |
| Authority.RehomeEffect | internal/mesh/authority.go:118-197 | a successful delegation or split was made by the holder to a subscriber, moves exactly the paths at or below the target that no deeper entry covers, and leaves every other lookup as it was |
| Authority.SplitTakesOwnIff | internal/mesh/authority.go:159-197 | every path a split re-homes was held by the node itself if and only if it held the sub-path |
| Authority.SplitTakesOthers | internal/mesh/authority.go:159-197 | splits that take another node's path, one outside the parent path and one below it |
| AuthorityManagement.ElectByUptime | internal/mesh/authority.go:327-354 | the loop elects a most senior candidate of its list |
| AuthorityManagement.AuthorityManager.AnnounceAuthority | internal/mesh/authority.go:96-115 | files the node itself for the path and nothing else; without a gossip manager it does so and reports an error |
| AuthorityManagement.AuthorityManager.SplitAuthority | internal/mesh/authority.go:159-197 | refused, changing nothing, without authority over the parent or when the new authority does not subscribe to it; otherwise re-homes the sub-path, though without a gossip manager it still reports an error |
| AuthorityManagement.AuthorityManager.DelegateAuthority | internal/mesh/authority.go:118-156 | the same for the path itself |
| AuthorityManagement.AuthorityManager.Propagate | internal/mesh/authority.go:388-408 | announcing fails exactly when no gossip manager is set |
| AuthorityManagement.AuthorityManager.ProcessAuthorityAnnouncement | internal/mesh/authority.go:247-265 | applies exactly the announcements newer than the longest match; then resets the missed count and completes and forgets the election |
| AuthorityManagement.AuthorityManager.BeginElection | internal/mesh/authority.go:283-310 | opens an election exactly when none is open and someone subscribes |
| AuthorityManagement.AuthorityManager.CompleteElection | internal/mesh/authority.go:312-318 | decides the election for the most senior candidate and marks it complete |
| AuthorityManagement.AuthorityManager.PromoteSelf | internal/mesh/authority.go:320-324 | only the winner files itself for the path |
| AuthorityManagement.AuthorityManager.OnHeartbeatMissed | internal/mesh/authority.go:200-218 | counts one miss for exactly the paths the node holds and calls elections for exactly those at the threshold |
| Replication.RunKeepsInvariant | internal/mesh/replication.go:688-866 | under every interleaving of recording writes with the loop's snapshot, send and trim, each path's recorded writes are its retired ones followed by its pending ones, and every retired batch was accepted by a subscriber |
| Replication.TrimNeverPanics | internal/mesh/replication.go:835-866 | the copy that was sent is still a prefix of the queue, so the trim never slices past it |
| Replication.StartInvariant | internal/mesh/replication.go:106-137 | a new manager satisfies the invariant |
| Replication.SafeToRetireIff | internal/mesh/replication.go:835-866 | however its sends go, a retired batch leaves no write unseen by its own subscribers if and only if all its writes have the same subscribers |
| Replication.RunReachesOwn | internal/mesh/replication.go:688-866 | in every run, a path recorded under one set of subscribers retires no write unseen |
| Replication.NeverLosesIff | internal/mesh/replication.go:688-866 | over all runs, a path never retires a write unseen by its own subscribers if and only if all writes it may record, each with a subscriber, have the same ones |
| ReplicationManagement.PathTextFaithful | internal/mesh/replication.go:955-967 | non-empty paths of dot-free segments are recovered from their text, so distinct ones never share a queue |
| ReplicationManagement.PathToString | internal/mesh/replication.go:955-967 | the loop joins the segments with dots |
| ReplicationManagement.ReplicationManager.RecordPathWrite | internal/mesh/replication.go:688-722 | queues the write, with the subscribers of the moment, exactly when this node is the authority |
| ReplicationManagement.ReplicationManager.ForwardWriteToAuthority | internal/mesh/replication.go:757-774 | fails without an authority, records locally when it is this node, otherwise hands over and queues nothing |
| ReplicationManagement.ReplicationManager.SnapshotPending | internal/mesh/replication.go:817-832 | copies exactly the non-empty queues and empties none |
| ReplicationManagement.ReplicationManager.SendBatch | internal/mesh/replication.go:848-856 | counts exactly the accepted sends of every write to each of its subscribers, positive exactly when someone accepted |
| ReplicationManagement.ReplicationManager.TrimReplicated | internal/mesh/replication.go:858-866 | drops exactly the copied prefix after a success, keeping what was appended since, and nothing otherwise |
| GossipTable.RunKeepsPeersSound | internal/mesh/gossip.go:80-213 | in every reachable state peers are distinct, exclude the node itself, number at most twice the round size, and are known nodes that are joined or failed |
| GossipTable.CleanupKeepsPeers | internal/mesh/gossip.go:570-586 | stale cleanup removes no peer and not the node itself |
| GossipTable.AbsorbedExactly | internal/mesh/gossip.go:486-539 | gossip leaves a node seen within a minute as it was, and otherwise takes the first update about it and no later one, the node itself included |
| GossipTable.UntouchedIff | internal/mesh/gossip.go:486-539 | an entry, the node's own included, is untouched if and only if it was seen within a minute or no update is about it |
| GossipTable.SelfOverwritten | internal/mesh/gossip.go:486-539 | an update about a node not seen by itself for a minute makes it record that it left, at another address |
| GossipTable.RoundConservesIff | internal/mesh/gossip.go:289-377 | a sending round loses exactly what is queued between its two lock sections |
| GossipTable.RoundsConserveIff | internal/mesh/gossip.go:289-377 | over any number of rounds every update is sent, in order, if and only if every sending round was quiet |
| GossipManagement.Sample | internal/mesh/gossip.go:552-567 | swap-removal draws the wanted number of distinct members of the pool |
| GossipManagement.GossipManager.UpdateGossipPeers | internal/mesh/gossip.go:542-567 | the new peers are distinct active nodes, as many as the smaller of twice the round size and the active nodes |
| GossipManagement.GossipManager.AddNode | internal/mesh/gossip.go:80-126 | records the node as joined with a bumped version, queues its update, resamples |
| GossipManagement.GossipManager.RemoveNode | internal/mesh/gossip.go:129-158 | marks a known node left, queues the update and resamples; an unknown one changes nothing |
| GossipManagement.GossipManager.MarkNodeFailed | internal/mesh/gossip.go:161-184 | marks a known node failed and queues the update; peers stay |
| GossipManagement.GossipManager.UpdateZoneInfo | internal/mesh/gossip.go:187-213 | replaces a known node's zone data and queues the update |
| GossipManagement.GossipManager.ProcessIncomingGossip | internal/mesh/gossip.go:486-539 | takes in every update in order, those about itself included, and resamples |
| GossipManagement.GossipManager.CleanupStaleNodes | internal/mesh/gossip.go:570-586 | forgets exactly the expired nodes that left |
| GossipManagement.GossipManager.SelectGossipTargets | internal/mesh/gossip.go:317-350 | targets are distinct joined peers, as many as the smaller of the round size and the joined peers |
| Heartbeat.StateMeaning | internal/mesh/heartbeat.go:255-307 | after any run the failure count is the errors since the last success, and a peer is online exactly when it answered and has since failed fewer than three times and passed every timeout check |
| Heartbeat.TransitionsAlternate | internal/mesh/heartbeat.go:255-307 | recovery and failure callbacks strictly alternate, recovery first, and the last one fired says where the peer stands |
| Heartbeat.OfflineIff | internal/mesh/heartbeat.go:288-419 | a peer goes offline exactly on the third or later error since its last success, or on a check past the timeout |
| Heartbeat.OffsetWithinSkews | internal/mesh/heartbeat.go:379-398 | without overflow the offset lies between the extreme skews |
| Heartbeat.AverageExactIff | internal/mesh/heartbeat.go:379-398 | the offset is the truncated average if and only if the sum of the skews fits 64 bits |
| Heartbeat.OverflowedOffset | internal/mesh/heartbeat.go:379-398 | two peers far ahead can average to an offset behind |
| HeartbeatManagement.PeerConnection.RecordSuccess | internal/mesh/heartbeat.go:255-274 | a success puts the peer online, clears its failures, and reports recovery exactly if it was offline |
| HeartbeatManagement.PeerConnection.RecordFailure | internal/mesh/heartbeat.go:288-307 | an error counts, and reports failure exactly when it takes an online peer off |
| HeartbeatManagement.PeerConnection.CheckTimeout | internal/mesh/heartbeat.go:401-419 | a check takes off exactly an online peer past the timeout |
| HeartbeatManagement.HeartbeatManager.AddPeer | internal/mesh/heartbeat.go:88-111 | adds a fresh offline peer unless already known |
| HeartbeatManagement.HeartbeatManager.CheckForFailures | internal/mesh/heartbeat.go:401-419 | takes off and reports exactly the online peers past the timeout, and changes no other |
| HeartbeatManagement.HeartbeatManager.UpdateClockOffset | internal/mesh/heartbeat.go:379-398 | the offset becomes the wrapped sum of the online peers' skews divided by their number, towards zero; unchanged when none is online |
| Wire.UnsignedRoundTrip | internal/protocol/encode.go:586-611 | big-endian fixed width gives back an unsigned number if and only if it fits |
| Wire.SignedRoundTrip | internal/protocol/encode.go:595-620 | and a signed one, through two's complement, if and only if it fits |
| Wire.PutGet | internal/protocol/decode.go:14-65 | every byte string of a width is the encoding of the number it is read as |
| TaggedFields.ReadFieldBack | internal/protocol/decode.go:838-901 | each reader inverts its writer and leaves the following bytes, except that a zero-length string or value at the end of input is refused |
| TaggedFields.TagLoopMeaning | internal/protocol/decode.go:197-239 | the tag loop computes the meaning of any field list, known or foreign, and refuses exactly those whose last field ends in a zero-length string or value |
| TaggedFields.MeaningIsLastValue | internal/protocol/decode.go:197-239 | a repeated field takes its last value; foreign fields take none |
| TaggedFields.SameMeaningSameDecoding | internal/protocol/decode.go:197-239 | order, repetition and foreign fields never change a decoded payload |
| TaggedFields.SkipFieldBack | internal/protocol/decode.go:903-928 | a foreign length-prefixed field is skipped to its end |
| PayloadReader.Reader.ReadString | internal/protocol/decode.go:856-868 | moves the cursor past exactly the string read |
| PayloadReader.Reader.ReadStringSlice | internal/protocol/decode.go:838-854 | reads the announced number of strings |
| PayloadReader.Reader.ReadValue | internal/protocol/decode.go:878-901 | reads a type tag and its data |
| PayloadReader.Reader.SkipField | internal/protocol/decode.go:903-928 | moves past exactly the skipped field |
| PayloadReader.DecodeTagged | internal/protocol/decode.go:197-239 | the loop over the moving cursor computes the tag-loop specification |
| PayloadReader.EncodeStringSlice | internal/protocol/encode.go:522-543 | the loop writes the tag, the count and every string with its length |
| Messages.WriteRoundTrip | internal/protocol/encode.go:135-160 | WRITE decodes to itself if and only if its lengths fit 32 bits |
| Messages.WriteTolerance | internal/protocol/decode.go:197-239 | any payload with the known fields of a message, permuted, repeated and mixed with foreign ones, decodes to it, unless its final field ends empty |
| Messages.PurgeRoundTrip | internal/protocol/encode.go:186-218 | PURGE decodes to itself if and only if its path fits |
| Messages.ReadAtRoundTrip | internal/protocol/encode.go:72-90 | READ_AT decodes to itself if and only if its path fits |
| Messages.ReadRoundTrip | internal/protocol/decode.go:68-75 | READ decodes to itself if and only if its path fits and does not end in an empty segment |
| Messages.StatusRoundTrip | internal/protocol/encode.go:244-290 | STATUS_RESPONSE decodes to itself if and only if its texts fit and its port and connection count fit 32 bits |
| Messages.AuthResultRoundTrip | internal/protocol/encode.go:330-362 | AUTH_RESULT decodes to itself if and only if its texts fit, though the agent ID travels signed and empty texts are omitted |
| Messages.RegisterRoundTrip | internal/protocol/encode.go:365-387 | REGISTER decodes to itself if and only if it fits and its token is not empty; with an empty token it is refused |
| Messages.ExecuteRoundTrip | internal/protocol/encode.go:931-960 | EXECUTE_RESPONSE decodes to itself if and only if it fits and carries only what its success flag lets it |
| ChildrenCodec.ChildrenRoundTrip | internal/protocol/encode.go:105-126 | CHILDREN_RESPONSE decodes to itself if and only if count and names fit; the count guard refuses no encoding |
| ChildrenCodec.EncodeChildrenResponse | internal/protocol/encode.go:105-126 | the loop writes the count and every child |
| ChildrenCodec.DecodeChildrenResponse | internal/protocol/decode.go:145-194 | the nested read loops compute the decoding specification |
| ChildrenCodec.ReadAllChildren | internal/protocol/decode.go:162-193 | reads exactly the announced children or fails |
| ChildrenCodec.ReadOneChild | internal/protocol/decode.go:164-190 | reads four numbers and a name, which may be empty |
| GossipCodec.TruncatedDecoding | internal/mesh/gossip.go:657-759 | any truncation of an encoding decodes to nothing, or to the same header with exactly the updates that arrived whole |
| GossipCodec.GossipRoundTrip | internal/mesh/gossip.go:589-759 | decoding inverts encoding if and only if names are below 256 bytes and counts below 2^32 |
| GossipCodec.EncodeGossipPayload | internal/mesh/gossip.go:589-654 | the computed size is filled exactly, with the encoding |
| GossipCodec.DecodeGossipPayload | internal/mesh/gossip.go:657-759 | on every payload whatever, no index leaves it and the result is the decoding specification's |
| AuthCodec.ResponseRoundTrip | internal/security/auth_protocol.go:155-228 | a response deserializes to itself if and only if its lengths fit |
| AuthCodec.ResponseCanonical | internal/security/auth_protocol.go:188-228 | accepted response bytes re-serialize to themselves |
| AuthCodec.ResponsePanicsIff | internal/security/auth_protocol.go:188-228 | the response decoder indexes past its input if and only if one of its first two blocks leaves fewer than four bytes for the next prefix |
| AuthCodec.ChallengePanicsIff | internal/security/auth_protocol.go:96-152 | the challenge decoder indexes past its input on exactly the same inputs |
| AuthCodec.FilledInputPanics | internal/security/auth_protocol.go:96-228 | such as an identity of eight bytes or more that fills the message |
| AuthCodec.ChallengeRoundTrip | internal/security/auth_protocol.go:52-152 | a challenge deserializes to itself if and only if its lengths fit and its key is absent or positive |
| AuthCodec.ChallengeCanonical | internal/security/auth_protocol.go:96-152 | accepted challenge bytes re-serialize to themselves if and only if the key has no leading zero byte |
| AuthCodec.GetNatBytes | internal/security/auth_protocol.go:52-93 | the shortest big-endian bytes of a natural number read back as it |
| AuthCodec.SerializeAuthResponse | internal/security/auth_protocol.go:155-185 | the moving offset fills the buffer exactly |
| AuthCodec.SerializeAuthChallenge | internal/security/auth_protocol.go:52-93 | the moving offset fills the buffer exactly, key included |
| AuthCodec.DeserializeAuthResponse | internal/security/auth_protocol.go:188-228 | the moving offset computes the decoding specification, panics included |
| AuthCodec.DeserializeAuthChallenge | internal/security/auth_protocol.go:96-152 | the moving offset computes the decoding specification, panics included |
| Framing.CreatedIsGenuine | internal/protocol/encode.go:45-57 | a created message can be encoded, with consistent length and checksum, if and only if its payload is below 2^32 bytes |
| Framing.DecodeEncoded | internal/protocol/decode.go:14-65 | an encoded message decodes to itself if its version and checksum are right and is refused otherwise |
| Framing.EncodeDecoded | internal/protocol/encode.go:13-42 | accepted bytes re-encode to the same bytes |
| Framing.StreamRoundTrip | cmd/amorph/client.go:416-462 | concatenated messages are read back one by one, in order, consuming exactly their bytes |
| Framing.StreamIsCanonical | cmd/amorph/client.go:416-462 | whatever is read as a list of messages is the encoding of that list |
| Framing.ReadFull | cmd/amorph/client.go:416-462 | fills the buffer from any non-empty pieces, failing only when the stream is too short |
| Framing.ReadResponse | cmd/amorph/client.go:416-462 | the message read depends on the bytes alone, not on how the connection cut them |
| Framing.ProtocolClient.SendRequest | cmd/amorph/client.go:373-413 | each attempt uses one sequence number, sends exactly the encoded request, and returns only a reply that carries that number |
| AriLexer.NextToken | internal/ari/lexer.go:239-305 | every token read ends strictly further along the text |
| AriLexer.TokenizableIff | internal/ari/lexer.go:187-305 | a text is read token by token without slicing past its end if and only if it does not end on a backslash inside a string or a regex |
| AriLexer.TokenizableUnlessBackslash | internal/ari/lexer.go:187-236 | in particular every text not ending in a backslash is |
| AriLexer.DanglingEscapeCrashes | internal/ari/lexer.go:187-236 | the shortest texts that are not: an open string, and an open regex, ended by a backslash |
| AriLexer.Lexer.ReadToken | internal/ari/lexer.go:239-305 | the moving fields compute the next token, with its line and column, or the panic |
| AriLexer.Lexer.ReadNumber | internal/ari/lexer.go:159-184 | reads a number, range or open range |
| AriLexer.Lexer.ReadString | internal/ari/lexer.go:187-200 | reads up to the closing quote, over escapes, or panics |
| AriLexer.Lexer.ReadRegex | internal/ari/lexer.go:203-236 | reads one or two slashed parts, or panics |
| AriParser.ParseAnchors | internal/ari/parser.go:314-338 | the anchor loop halts: each turn starts strictly further along the text, error recovery included |
| AriParser.ParsePatterns | internal/ari/parser.go:340-353 | the pattern loop halts and always consumes something |
| AriParser.ParseSection | internal/ari/parser.go:200-288 | nested sections and their indentation loops halt, each starting strictly further along |
| AriParser.ParseCustomType | internal/ari/parser.go:71-127 | the mapping loop halts and a type keyword is always consumed |
| AriParser.ParseDefinitions | internal/ari/parser.go:40-68 | the whole parse halts on every text, at an end-of-text token |
| AriParser.EofMeansEnd | internal/ari/parser.go:40-68 | in a text without NUL characters only blanks follow that token |
| AriParsing.Parser.NextToken | internal/ari/parser.go:34-37 | both lookahead tokens move on by one |
| AriParsing.Parser.ParseDistance | internal/ari/parser.go:416-466 | reads the distance the token denotes, refuses numbers out of range, skips other tokens |
| AriParsing.Parser.ParseAnchor | internal/ari/parser.go:360-404 | reads a direction and its optional distance |
| AriParsing.Parser.ParsePattern | internal/ari/parser.go:469-517 | consumes one token and returns the pattern it denotes or complains |
| AriParsing.Parser.ParseField | internal/ari/parser.go:292-356 | the loops over tokens compute the field specification, errors included |
| AriParsing.Parser.ParseCustomPattern | internal/ari/parser.go:130-197 | computes the specification that reads back every written mapping |
| AriParsing.Parser.ParseCustomType | internal/ari/parser.go:71-127 | computes the specification that takes exactly the indented items |
| AriParsing.Parser.ParseSection | internal/ari/parser.go:200-288 | computes the specification that takes exactly the items at or right of the first one |
| AriParsing.Parser.ParseARISpec | internal/ari/parser.go:40-68 | on every tokenizable text the parser halts with the specification's result, having left only blanks unread unless the text holds a NUL |
| AriSections.BodyTakes | internal/ari/parser.go:249-288 | a body takes exactly the items that start at or right of its level, each adding its field, section or break in order, and stops at the first token after an item that is not indented or starts left of the level |
| AriSections.SectionTakes | internal/ari/parser.go:200-288 | a section is its header and such items, the level being the column of the first; without a complete header there is none |
| AriSections.NestsByColumnIff | internal/ari/parser.go:200-288 | a section's own items are all indented further than its header if and only if its first line is; sections among them may still take lines left of it |
| AriSections.NestsThroughoutIff | internal/ari/parser.go:200-288 | everything a section takes, through any number of nested sections, lies right of every header above it if and only if the first line of the section and of every section nested in it lies right of its own header |
| AriSections.SiblingBecomesChild | internal/ari/parser.go:200-288 | a field written at the column of a section without a body is parsed into that section, without an error |
| AriSections.LeftLineBecomesGrandchild | internal/ari/parser.go:200-288 | a field written left of two nested sections, the inner without a body, is parsed into the inner one, without an error, although the items of the outer two lie right of their headers |
| AriCustomTypes.MappingsTake | internal/ari/parser.go:95-127 | a mapping list takes exactly the indented items, one after the other whether or not on a line of their own, each adding its mapping or replacing the output type; it fails if and only if an output declaration is broken |
| AriCustomTypes.CustomTypeTakes | internal/ari/parser.go:71-127 | a custom type is its name and those items |
| AriCustomTypes.ModifiersBack | internal/ari/parser.go:157-194 | written modifiers, with or without a string argument, and an output type are read back in order, to the end of the line |
| AriCustomTypes.OutputBackIff | internal/ari/parser.go:173-191 | a type name after `as` is read as the output type if and only if it is not a keyword; a keyword stays unread |
| AriCustomTypes.MappingBack | internal/ari/parser.go:130-197 | a mapping written on a line is read as written: pattern, replacement (which makes a regex a transforming one), modifiers and output type, without an error |
| AriRoundTrip.DistanceBack | internal/ari/ast.go:105-120 | a printed canonical distance is read back as itself |
| AriRoundTrip.PatternBack | internal/ari/ast.go:143-168 | a printed text, transforming regex, built-in or custom type is read back as itself |
| AriRoundTrip.FieldRoundTrip | internal/ari/parser.go:292-356 | a canonical field printed as a line anywhere in a text parses back to itself, to the character and without errors |
| AriRoundTrip.ComesBackIff | internal/ari/parser.go:292-356 | a field comes back whole from its printed line if and only if it is canonical |
| AriRoundTrip.ParsedFieldCanonical | internal/ari/parser.go:292-356 | every field parsed without complaint and without regex patterns is canonical |
| AriRoundTrip.Reparse | internal/ari/parser.go:292-356 | printing such a field and parsing it again gives the same field |
| AriRoundTrip.RegexNeverBack | internal/ari/ast.go:143-168 | no printed regex pattern is read as itself |
| Filters.OneOperatorParses | internal/security/filters.go:160-194 | a text with one `?=` compares the trimmed attribute on its left with the unquoted text on its right |
| Filters.JudgeMeaning | internal/security/filters.go:41-78 | in any order of its fields, a filter hides exactly what all of them match; it errs only if one fails and shows only if one misses |
| Filters.OrderIrrelevantIff | internal/security/filters.go:127-231 | the order of the record's fields shows on a stamp if and only if one field fails on it and another does not match |
| Filters.AlwaysIrrelevantIff | internal/security/filters.go:127-231 | a record answers every stamp alike in all orders if and only if it has no malformed text or a single field |
| Filters.RunKeepsCoherent | internal/security/filters.go:81-378 | after every run of set, clear and fetch calls, failed stores included, each cached condition is a parse of the filter stored now |
| Filters.CacheNeverShows | internal/security/filters.go:81-378 | after any run the answer is that of the filter stored now, whatever is cached, wherever the order of its fields cannot show |
| Filters.KeepsExactlyUnmatched | internal/security/filters.go:314-341 | the items kept are exactly those not matched by all fields of the stored record, if none is malformed |
| Filters.FilterManager.SetFilter | internal/security/filters.go:280-311 | a success stores the filter and forgets the cached one; a failure changes nothing |
| Filters.FilterManager.ClearFilter | internal/security/filters.go:345-378 | forgets the cached filter in any case and stores the empty one on success |
| Filters.FilterManager.GetFilterCondition | internal/security/filters.go:81-125 | answers from the cache, else parses the stored record in some order of its fields and caches it |
| Filters.FilterManager.ApplyFilters | internal/security/filters.go:41-78 | the loop over expressions gives the verdict of the fetched condition |
| Filters.FilterManager.FilterVisible | internal/security/filters.go:314-341 | whatever order the items are visited in, keeps exactly those the fetched condition shows, or fails if one fails |

## Left out

- Sockets, deadlines, goroutine scheduling and tickers; a connection delivers any non-empty piece and each lock section is one step. A read of zero bytes without an error, and a write that is cut short, are not modelled.
- The checksum is a function given as a parameter; CRC-32 itself is not modelled.
- Diffie-Hellman, key derivation, challenge verification and `AuthenticationSession`.
- The placeholder sends and payload codecs of replication and authority (`encodeAuthorityAnnouncement`, `decodeAuthorityAnnouncement`, `sendSubscriptionUpdate`, `encodeSubscriptionUpdate`); delivery is an arbitrary outcome per send.
- Replication's zone path, `HandleSubscriptionUpdate`, `RequestSubscription` and the stub `stringToPath`.
- `RecordWrite` and `considerSplitting` of the authority manager: the write-rate window only counts calls.
- The remaining tagged messages (acknowledgements, WHO_AM_I, mesh, bridge, invitation, extraction): they run the same tag loop and would only add members.
- Storage, the subscription registry and the types package are not part of this model; they appear as maps from path or agent to value, from path to subscribers, and as what a stored filter reads back as.
- `internal/ari/engine.go`, `internal/mesh/discovery.go`, `identity.go` and `manager.go`, configuration, command-line interfaces and scripts.
- Memory: `make` with a length taken from the wire may be huge; the model has no limit.
- AriParser.ParseDefinitions: the text of error messages is not modelled; each complaint is a value with its line and column.
- AriParsing.Parser.constructor: asks that the whole text can be lexed, so texts whose dangling escape lies behind a NUL character, where the parser may stop before it, are not covered; the exact condition is that of the lexer.
- AriLexer.NextToken: characters stand for bytes, and a non-ASCII byte, which Go prints as a multi-byte literal of an illegal token, keeps its own character as the literal.
- AriRoundTrip.FieldRoundTrip: whole sections are not printed, because the repository has no printer for them in the grammar's form; the field line arranges the printed directions, distances and patterns as the parser's grammar comment does.
- Authority.AtMostOnePromoted: assumes that all elections for the path see one candidate set, which the code does not enforce; Authority.OnePromoterIff does without.
- Heartbeat.StateMeaning: round-trip times, the decoding of responses and the connection field are not modelled.
- HeartbeatManagement.HeartbeatManager.CheckForFailures: the model does not capture a heartbeat still in flight on a peer removed meanwhile.
- Filters.JudgeMeaning: numbers are compared as reals, so identifiers above 2^53 that a float64 would confuse are told apart, and NaN is not modelled.
- Filters.FilterManager.SetFilter: serialization is not modelled; the caller says what the stored bytes read back as.
- Framing.ProtocolClient.SendRequest: a reply that fails or mismatches leaves the connection open, as in the code; reconnecting is not modelled.
