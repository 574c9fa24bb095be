# Verified model of the Python cell protocol

A Dafny model of the parts of the Python CellProtocol node whose correctness spans many
functions, and proofs of what they promise:

* the bridge channel's four-message admission, as two state machines over a network that
  drops, replays, reorders and injects frames, and the session behind it;
* canonical JSON, UTF-8, base58, base64, did:key and the specification-driven wire models;
* agreements, conditions and contracts, and the chat cell's admission on top of them;
* enrollment of a second key and the entity anchor's identityLinks actions;
* the invitation landing store, its rate limiter and the issuer's inbox;
* the graph algorithms of the structural value profile;
* key paths, the re-entrant cell lock and its update events, bridge correlation by cid, and
  the resolver's one instance per key.

`dafny verify dfyconfig.toml` checks everything.

Each file is one module. Where the source updates fields, a class does the same and its
methods are proved against functions of a snapshot (`ChannelEnds` against `Channel`,
`CanonicalWriter` against `Canonical`, `ChatCell` against `Chat`, `AnchorCell` against
`Anchor`, `KeyPathMemory` against `KeyPath`, and so on); the theorems are about those
functions, over whole runs. Graph searches, codecs, parsers and stores keep their loops.

Signatures, hashes, clocks, randomness and other outside answers are parameters of a
`World` or of a step. Runs are lists of events, and a theorem about runs holds for every
list whose events were possible when they happened.

Four promises turned out narrower than they read:

* a revoked chat invitee is readmitted not only by accepting or inviting it, but also by
  declining it first (`ChatAccess.DeclineReadmits`). The calls that lift the bar are exactly
  those of `ChatAccess.StepBarred`, and an invitee with a readable key can be let in again
  without another such call if and only if one has lifted it (`ChatAccess.ReadmittedExactly`);
* a key path set that raises can still change the tree. It cannot exactly when the path is
  `KeyPath.Clean` (`KeyPath.FailureExactly`, both directions): no index after the first step
  is negative, and every `[k=v]` step but the last is followed by a key, which if it is `k`
  itself is last, is followed by another `[k=v]`, or has null as the value. So the update log
  of writes under a path text replays in every run exactly when the path is clean or does
  not start with a key (`CellState.ReplaysExactly`);
* an approval id can complete twice. A completion is refused for its id exactly when that id
  is blank or the last that completed among those with the same cleaned-up key
  (`Anchor.RefusedExactly`): two ids that differ only in characters outside `[A-Za-z0-9_-]`
  share one entry, and completing a, b, a succeeds three times
  (`Anchor.CollidingIdCompletesTwice`); without such a pair an id completes once, and a
  revoked link stays revoked (`Anchor.RevokedLinkStaysRevoked`);
* a completion can take away the record of another link: it still reads as a record, and is
  the same, if and only if the completed link's id is not empty
  (`AnchorCell.OtherRecordExactly`). For the empty id the text of the key path ends in a dot
  and means the dict of all records, which is then replaced (`Anchor.EmptyIdReplacesAll`).

`Channel.IdealWorldExists` and `Enrollment.IdealWorldExists` show worlds that meet what the
theorems take of digests, of signing keys, of the text of a signing challenge and of
calendar texts, and a flow of enrollment that completes.

## Model

| member | source | states |
|---|---|---|
| LowLink.ArticulationPointsAndBridges | src/cellprotocol/cells/structural_value_profile.py:142-181 | for every simple undirected graph and every neighbour order, the stack loop returns exactly the number of cut vertices (nodes whose removal separates two others of their component) and of edges whose removal disconnects their endpoints |
| DepthFirst.NoCrossEdge | src/cellprotocol/cells/structural_value_profile.py:155-171 | a finished subtree has no edge except to its own nodes and to nodes still on the stack below it: depth-first search leaves no cross edges |
| LowLink.CutFromLow | src/cellprotocol/cells/structural_value_profile.py:172-179 | a child whose low value reaches its parent's discovery time or later is separated from the rest when a non-root parent is removed |
| LowLink.AroundParent | src/cellprotocol/cells/structural_value_profile.py:163-176 | a child with a smaller low value has a walk around its parent |
| LowLink.BridgeFromLow | src/cellprotocol/cells/structural_value_profile.py:175-177 | low of the child above disc of the parent makes the edge a bridge |
| LowLink.NoBridgeFromLow | src/cellprotocol/cells/structural_value_profile.py:175-177 | otherwise the tree edge is no bridge |
| LowLink.BackEdgeNoBridge | src/cellprotocol/cells/structural_value_profile.py:162-164 | an edge to an already discovered node other than the parent is never a bridge |
| LowLink.SecondBranch | src/cellprotocol/cells/structural_value_profile.py:177-180 | two children of a root lie in different parts of the graph without the root |
| LowLink.RootNoCut | src/cellprotocol/cells/structural_value_profile.py:180-181 | a root with at most one child is no cut vertex |
| LowLink.AllCounted | src/cellprotocol/cells/structural_value_profile.py:142-181 | when every search is over, counted points and bridges are all cut vertices and all bridges, none twice |
| Graphs.NotCutByHub | src/cellprotocol/cells/structural_value_profile.py:142-181 | a node is no cut vertex if all its neighbours reach one another without it |
| Graphs.CutByNeighbours | src/cellprotocol/cells/structural_value_profile.py:142-181 | two neighbours that only meet through a node make it a cut vertex |
| AdjacencyBuilder.BuildAdjacency | src/cellprotocol/cells/structural_value_profile.py:47-60 | the adjacency built from nodes and edges is symmetric, irreflexive, has every endpoint as a node, and holds an arc exactly for each listed edge between different nodes |
| AdjacencyBuilder.DegreesCountEdgesTwice | src/cellprotocol/cells/structural_value_profile.py:63-64 | degree sums are twice the number of undirected edges |
| AdjacencyBuilder.UndirectedEdgeCount | src/cellprotocol/cells/structural_value_profile.py:63-64 | the halved degree sum is the number of edges |
| Components.ConnectedComponents | src/cellprotocol/cells/structural_value_profile.py:67-84 | the result partitions the nodes into maximal connected sets, in decreasing size |
| Components.Flood | src/cellprotocol/cells/structural_value_profile.py:71-82 | one search collects exactly the nodes joined to its start |
| Distances.DistancesFrom | src/cellprotocol/cells/structural_value_profile.py:92-100 | the queue search assigns every reachable node its shortest-path distance and nothing else |
| Distances.SpreadIsExact | src/cellprotocol/cells/structural_value_profile.py:92-100 | values that grow by at most one along edges and are witnessed by walks are shortest-path distances |
| Distances.DiameterAndEffective | src/cellprotocol/cells/structural_value_profile.py:87-107 | on a component the first result is the greatest distance, the second the least d with at least nine tenths of the ordered pairs of distinct nodes within distance d |
| Distances.EffectiveAt | src/cellprotocol/cells/structural_value_profile.py:103-107 | the element at that index of the sorted list is the least distance that covers nine tenths of it |
| Triangles.TrianglesAndWedges | src/cellprotocol/cells/structural_value_profile.py:110-121 | the neighbour-pair loops return the number of triangles and of paths of length two |
| Triangles.CornersCountTriples | src/cellprotocol/cells/structural_value_profile.py:110-121 | counting a triangle at each of its corners counts it exactly three times |
| Triangles.TrianglesWithinWedges | src/cellprotocol/cells/structural_value_profile.py:110-121 | three times the triangles never exceed the wedges |
| KeyOrder.CompareTotal | src/cellprotocol/interop/canonical.py:32-52 | both key orders are antisymmetric and tell different ASCII keys apart |
| KeyOrder.CompareTrans | src/cellprotocol/interop/canonical.py:32-52 | both key orders are transitive |
| KeyOrder.FoundationExactly | src/cellprotocol/interop/canonical.py:32-52 | Foundation's order is the first difference of the two texts read together, digit runs as numbers and other characters without case, then code points |
| KeyOrder.LettersDecide | src/cellprotocol/interop/canonical.py:32-48 | after a part that is the same up to case, the first two different characters decide, without their case |
| KeyOrder.NumbersDecide | src/cellprotocol/interop/canonical.py:38-42 | ... or two digit runs, by their decimal value |
| KeyOrder.ShorterFirst | src/cellprotocol/interop/canonical.py:46-48 | ... or the key that ends first |
| KeyOrder.CaseDecidesLast | src/cellprotocol/interop/canonical.py:49-52 | keys that differ in case alone stand by the first different code point |
| KeyOrder.CodePointsDecide | src/cellprotocol/interop/canonical.py:110-122 | in the other order the first different code point always decides, else the shorter key |
| KeyOrder.RequestIdStands | src/cellprotocol/interop/canonical.py:32-52 | requestedDomains is signed before requestID, and stands after it in the other order |
| KeyOrder.SortSorts | src/cellprotocol/interop/canonical.py:58-59 | sorting distinct keys gives the same keys in strictly ascending order |
| KeyOrder.AscendingUnique | src/cellprotocol/interop/canonical.py:58-59 | the sorted list depends on the set of keys only |
| Canonical.ParseCanonical | src/cellprotocol/interop/canonical.py:137-149 | an RFC 8259 reader recovers the value from canonical_json in both key orders and both slash modes |
| Canonical.CanonicalInjective | src/cellprotocol/interop/canonical.py:137-149 | two values have the same canonical text exactly when they are equal as dicts: injective, and independent of insertion order |
| Canonical.MembersStand | src/cellprotocol/interop/canonical.py:103-134 | in the canonical text of a dict, of two members the one whose key is less stands first |
| Canonical.SortedSame | src/cellprotocol/interop/canonical.py:110-122 | sorting members keeps a value a dict and equal to itself |
| Canonical.StringBack | src/cellprotocol/interop/canonical.py:74-88 | a printed string reads back character by character, escapes included |
| Canonical.EscapedIsShort | src/cellprotocol/interop/canonical.py:74-88 | which characters are written as they are, which with a two-character escape (the slash when asked), and the others as six characters in lower-case hex |
| Canonical.NumberBack | src/cellprotocol/interop/canonical.py:91-100 | a printed integer reads back |
| Canonical.PayloadInjective | src/cellprotocol/interop/canonical.py:152-155 | signed payloads agree exactly when the members that are not excluded agree |
| CanonicalWriter.CanonicalText | src/cellprotocol/interop/canonical.py:137-149 | the writer that appends to an output list produces canonical_json |
| CanonicalWriter.Write | src/cellprotocol/interop/canonical.py:103-134 | one recursive call appends exactly the text of its value |
| CanonicalWriter.WriteString | src/cellprotocol/interop/canonical.py:74-88 | the character loop writes the quoted string |
| Base58.DecodeEncode | src/cellprotocol/interop/identity_link.py:67-89 | decoding an encoding gives the bytes back, leading zero bytes included |
| Base58.EncodeDecode | src/cellprotocol/interop/identity_link.py:67-89 | a text decodes exactly when all its characters are in the alphabet, and is then the encoding of the result |
| Base58.Encode | src/cellprotocol/interop/identity_link.py:67-77 | the two loops of base58_encode compute the rebased digits with a 1 per leading zero byte |
| Base58.Decode | src/cellprotocol/interop/identity_link.py:80-89 | the loop of base58_decode computes the bytes or refuses |
| Base58.DidKeyBack | src/cellprotocol/interop/identity_link.py:92-108 | reading a did:key gives back its curve and key, for all three curves |
| Base58.DidKeyOnly | src/cellprotocol/interop/identity_link.py:92-108 | whatever reads as a did:key is the did of what was read |
| Base58.DidKeySays | src/cellprotocol/interop/identity_link.py:92-97 | the prefix of each of the three curves, and that there are no others |
| Base64.DecodeEncode | src/cellprotocol/interop/channel.py:79-89 | padded base64 is read back |
| Base64.DecodeExactly | src/cellprotocol/interop/channel.py:79-89 | every text: it is read exactly if it is data characters and padding that fits their number, and the bytes written again give its characters, up to one whose last bits are left over |
| Base64Url.DecodeEncode | src/cellprotocol/interop/models.py:495-506 | bytes written as an unpadded URL-safe token are read back by the decoder that passes over foreign characters |
| Utf8.DecodeExactly | src/cellprotocol/interop/models.py:495-506 | the bytes that read as a text are exactly its UTF-8 encoding |
| Envelopes.DecodeExact | src/cellprotocol/interop/channel.py:57-72 | decode accepts exactly the encodings of objects of at most 16384 bytes, all of whose numbers are integers |
| Envelopes.DecodeEncode | src/cellprotocol/interop/channel.py:57-72 | an encoded object reads back, or is too long |
| Envelopes.OpenEnvelopeBack | src/cellprotocol/interop/channel.py:290-302 | opening an envelope gives its command and body exactly when both fit |
| Envelopes.OpensExactly | src/cellprotocol/interop/channel.py:290-302 | open_envelope accepts a text exactly when it is the object of a body as text, the cid 0 and one of the four authentication commands, within 16384 bytes, body too, and gives that command and body |
| Channel.TranscriptBack | src/cellprotocol/interop/channel.py:214-262 | a transcript survives the wire |
| Channel.DigestInjective | src/cellprotocol/interop/channel.py:265-266 | with an injective digest, and nothing else, a transcript digest names one transcript |
| Channel.SigningDataInjective | src/cellprotocol/interop/channel.py:269-287 | the bytes to sign name one transcript: nonces, session, generation, identity, endpoint and times |
| Channel.IdealWorldExists | src/cellprotocol/interop/channel.py:265-287 | there is a world that meets what these theorems take: the digest is injective, the challenge of every transcript is read back from its bytes, and every key has a signature of its own |
| Handshake.Completion | src/cellprotocol/interop/channel.py:387-619 | two honest ends both finish exactly under explicit conditions on deadlines, endpoint, domain, nonces, UUIDs, clock skew, expiry, sizes and policy; then both hold, field by field, the client's identity and endpoint, the server's session and generation, the transcript's digest, and as expiry 300 s after the server's millisecond clock at the hello, and the client signed exactly once, for that transcript |
| Handshake.CompletesExactly | src/cellprotocol/interop/channel.py:387-619 | the steps' own conditions together are those explicit ones, said of a transcript written out member by member |
| Handshake.ValidExactly | src/cellprotocol/interop/verify.py:406-448 | a challenge made from a transcript validates exactly under stated bounds on scope, nonce, size and times |
| Handshake.HelloStep | src/cellprotocol/interop/channel.py:404-428 | the server answers a hello with the agreed transcript exactly when the nonce, deadline and size allow |
| Handshake.ChallengeStep | src/cellprotocol/interop/channel.py:526-573 | the client offers the transcript's bytes for signing exactly when its checks pass |
| Handshake.SigningStep | src/cellprotocol/interop/channel.py:575-587 | the proof goes out exactly when the signature verifies and the challenge is still valid on the client's clock |
| Handshake.ProofStep | src/cellprotocol/interop/channel.py:430-464 | the server admits exactly when deadline, 30 s lifetime, policy and channel expiry allow |
| Handshake.AcceptStep | src/cellprotocol/interop/channel.py:589-619 | the client connects on the acknowledgement exactly in time |
| ChannelFrames.ServerExactly | src/cellprotocol/interop/channel.py:387-464 | whoever sends it: the accepting end answers exactly a hello or a proof that meets the stated conditions on its fields and the clocks, with the stated state and reply; any other frame closes it and admits nobody |
| ChannelFrames.ServerRefusal | src/cellprotocol/interop/channel.py:387-464 | each refusal of the accepting end is for what its code says |
| ChannelFrames.OfferExactly | src/cellprotocol/interop/channel.py:526-573 | bytes go to the signer exactly for a challenge frame of the client's own endpoint, identity and nonce, with the stated bounds on times, and the exact bytes; any other frame ends the client |
| ChannelFrames.FinishExactly | src/cellprotocol/interop/channel.py:575-587 | the proof goes out exactly with a signature over the offered bytes, in time; the bytes are not offered again |
| ChannelFrames.ConnectsExactly | src/cellprotocol/interop/channel.py:589-619 | the client connects exactly on an acknowledgement with its session, generation and digest, before the channel ends |
| ChannelFrames.TranscriptSays | src/cellprotocol/interop/channel.py:214-262 | the members of a transcript as it travels and is digested |
| ChannelFrames.SignerIsHanded | src/cellprotocol/interop/channel.py:269-287 | what the bytes to sign read as, member by member: purpose, action, resource with the digest, audience, nonce and 30 s |
| Agreement.AdmittedHasPartner | src/cellprotocol/interop/channel.py:387-464 | in every run over an adversarial network, an admission under an honest key has a client of that key and endpoint that accepted this very transcript |
| Agreement.OneAdmissionPerConnect | src/cellprotocol/interop/channel.py:387-464 | one connect is behind at most one admission |
| Agreement.SignsOnce | src/cellprotocol/interop/channel.py:526-587 | a client's signer is asked at most once in a run, for the transcript the client accepted |
| Agreement.ProofIsForOneGeneration | src/cellprotocol/interop/channel.py:430-464 | no proof frame admits servers of two generations, forged or not |
| Agreement.StepKeeps | src/cellprotocol/interop/channel.py:356-619 | every event of the network keeps the link between servers' pending challenges, clients' transcripts and what was signed |
| HonestRun.HonestRunIsReached | src/cellprotocol/interop/channel.py:387-619 | under the conditions of a completed handshake a server and a client that start in the empty network reach, by events possible there, a network in which both hold the same admission |
| ChannelEnds.ChannelServer.Receive | src/cellprotocol/interop/channel.py:387-402 | the stateful server's reply and new state are the step function's |
| ChannelEnds.ChannelServer.OnProof | src/cellprotocol/interop/channel.py:430-464 | the pending challenge is consumed first; state, admission and reply are the step function's |
| ChannelEnds.ChannelServer.OnHello | src/cellprotocol/interop/channel.py:404-428 | pending challenge, state and reply are the step function's |
| ChannelEnds.ChannelClient.BeginChallenge | src/cellprotocol/interop/channel.py:526-573 | the client's state, transcript and offered bytes are the step function's |
| ChannelEnds.ChannelClient.FinishChallenge | src/cellprotocol/interop/channel.py:575-587 | offered bytes are dropped, and state and proof are the step function's |
| ChannelEnds.ChannelClient.AcceptFrame | src/cellprotocol/interop/channel.py:589-619 | admission and state are the step function's |
| BridgeSession.ServeSafe | src/cellprotocol_scaffold/bridge_auth.py:106-142 | only commands under the admitted identity, or identity-less responses, are passed on, each checked before expiry; nothing is sent at or after expiry |
| BridgeSession.ServeComplete | src/cellprotocol_scaffold/bridge_auth.py:112-132 | every command is passed on in order up to the first frame that breaks a rule |
| BridgeSession.ServeExactly | src/cellprotocol_scaffold/bridge_auth.py:112-142 | with the index of the first frame that breaks a rule: everything before it is passed on and answered, and how serving ends at it, what is still passed on and which answers still go out |
| BridgeSession.SpeaksUntil | src/cellprotocol_scaffold/bridge_auth.py:106-127 | after a completed handshake a command under the admitted identity, other than those of the handshake, passes if and only if now is before 300 s after the server's clock at the hello |
| BridgeSession.PublicExactly | src/cellprotocol_scaffold/bridge_auth.py:25-47 | the principal of a wire identity: none without a key, else the uuid with the key its text encodes, else refused |
| BridgeSession.SpeaksForAClient | src/cellprotocol_scaffold/bridge_auth.py:95-132 | with admission as above, what the Cell hears under an honest key comes from that key's own client of this endpoint |
| BridgeSession.Session.Admit | src/cellprotocol_scaffold/bridge_auth.py:95-104 | the admission loop answers, ends and leaves the server as specified, and the session's principal is the server's |
| BridgeSession.AdmittedExactly | src/cellprotocol_scaffold/bridge_auth.py:95-104 | a session is admitted if and only if its first two frames are an accepted hello and then an accepted proof; both are answered, and every other sequence of frames ends in a failure without admission |
| BridgeSession.Session.ServeFrames | src/cellprotocol_scaffold/bridge_auth.py:112-132 | the serving loop passes, sends and ends as specified |
| BridgeSession.Session.Respond | src/cellprotocol_scaffold/bridge_auth.py:129-142 | responses go out up to the first late one |
| Contracts.PermissionBack | src/cellprotocol/agreement.py:66-84 | the permission string a grant is normalised to means the same bits, for all bits |
| Contracts.PermissionExactly | src/cellprotocol/agreement.py:66-84 | a text is a permission exactly when, stripped, it is one or two groups of three or four letters in their places, and each bit is the letter in its place |
| Contracts.GrantsExactly | src/cellprotocol/agreement.py:98-106 | a grant covers another exactly for the same key path and a permission that asks for something and for nothing the grant lacks |
| Contracts.GrantsByLetters | src/cellprotocol/agreement.py:98-106 | the same, letter by letter, for four-letter permissions |
| Contracts.GrantsTransitive | src/cellprotocol/agreement.py:98-106 | a grant that covers a covering grant covers |
| Contracts.AllowsExactly | src/cellprotocol/general_cell.py:324-360 | contract_allows, whose conditions read the cell again, terminates and equals a two-level rule: some contract in force covers the request and all its conditions are met by outright access alone; while conditions are evaluated it is always no |
| Contracts.AllowsByContract | src/cellprotocol/general_cell.py:334-360 | contract_allows holds if and only if a kept contract with the requester's uuid and key, issued after its subject's revocation, with issuedAt <= now < issuedAt + duration and a duration within the template's, covers the request by a grant, all its grants are covered by template grants, and its conditions are met: said of the fields alone |
| Contracts.AccessByParts | src/cellprotocol/cells/chat.py:203-218 | access is the owner's, an open key's, or such a contract's, with the root and chat rules |
| Contracts.ConditionReads | src/cellprotocol/agreement.py:158-175 | when a lookup condition on the target or the identity is met, by what outright access reads |
| Contracts.EvaluatingIsOutright | src/cellprotocol/agreement.py:158-175 | evaluating a condition can never consult a contract |
| Contracts.AccessExactly | src/cellprotocol/cells/chat.py:203-218 | validate_access with the dispatcher's root and chat rules, said per contract |
| Contracts.BoundedByTemplate | src/cellprotocol/general_cell.py:334-360 | whenever a contract gives access the current template itself grants the request |
| ContractStore.RevocationForgets | src/cellprotocol/general_cell.py:362-365 | after remove_contracts, and whatever happens next, the subject's access is as if no contract had been signed before |
| ContractStore.RunStanding | src/cellprotocol/general_cell.py:271-365 | in every run every contract kept is later than its subject's last revocation, so the revocation test in contract_allows never fires on a kept contract |
| ContractStore.SignedCounts | src/cellprotocol/general_cell.py:271-360 | a contract just signed gives what it grants from its issue to its end while the conditions hold, also after a revocation |
| ContractStore.AdmissibleExactly | src/cellprotocol/general_cell.py:271-322 | a request is signed only with the agreement, the grants, the duration, the conditions and under OwnerApprovalRequired the owner or sponsor it needs, and whenever it has them |
| ContractStore.AgreeExactly | src/cellprotocol/general_cell.py:271-322 | signing adds one contract with the request's grants and duration, issued after the subject's revocation; otherwise nothing changes |
| ContractStore.RevokeExactly | src/cellprotocol/general_cell.py:362-365 | revoking sets the moment and takes exactly the subject's contracts |
| ContractStore.AccessWasSigned | src/cellprotocol/general_cell.py:271-365 | in every run from no contracts, access by contract goes back to one signing in that run, with its sponsor and conditions, after which its subject was not revoked, whose contract covers the request and is in its term |
| ContractStore.TermEnds | src/cellprotocol/general_cell.py:334-360 | after a signing and any run without another for the subject, there is no access by contract at or after issuedAt + duration |
| ContractStore.AdmissibleIgnoresContracts | src/cellprotocol/general_cell.py:271-322 | signing a contract consults no other contract |
| ContractStore.GeneralCell.AddAgreement | src/cellprotocol/general_cell.py:271-322 | the cell signs exactly when the request is inside the template, approved or automatic, and all conditions hold; the new state is the specified one |
| ContractStore.GeneralCell.ContractAllows | src/cellprotocol/general_cell.py:334-360 | the loop over contracts decides as the rule does |
| ContractStore.GeneralCell.RemoveContracts | src/cellprotocol/general_cell.py:362-365 | the subject's contracts go and its revocation moment is set |
| Chat.RunSound | src/cellprotocol/cells/chat.py:326-373 | in every reachable state consumed maps invitation ids injectively to acceptance ids, records stand under their own identity, and a stored acceptance is the consumed one of the stored artifact |
| Chat.GenerateSound | src/cellprotocol/cells/chat.py:521-559 | new artifacts keep that |
| Chat.AcceptSound | src/cellprotocol/cells/chat.py:579-626 | accepting an artifact keeps that |
| Chat.PresentExactly | src/cellprotocol/cells/chat.py:579-626 | an acceptance changes the room exactly when artifact and acceptance verify, are for this chat and for the current artifact of a record that is neither revoked nor declined, and no id was spent otherwise; then the record is accepted with both and the id is spent |
| Chat.StepGives | src/cellprotocol/cells/chat.py:487-637 | one call makes a record accepted only as an owner's update or as such an acceptance; it stores an acceptance or spends an id only as the latter |
| Chat.MembershipHasCause | src/cellprotocol/cells/chat.py:487-637 | in every run an accepted record was accepted at the start or became so by one of these two calls |
| Chat.StoredWasVerified | src/cellprotocol/cells/chat.py:579-626 | in every run a stored acceptance was verified against its stored artifact when it was stored, or was there at the start |
| Chat.UpdateExactly | src/cellprotocol/cells/chat.py:628-637 | an update sets the status of all its targets or of none |
| Chat.MintExactly | src/cellprotocol/cells/chat.py:521-559 | exactly the chosen records get a new artifact, lose their acceptance and their old artifact's spent id; a declined one becomes pending |
| Chat.InviteExactly | src/cellprotocol/cells/chat.py:487-503 | inviting makes exactly the people with a usable identity pending, or leaves them accepted, and drops their acceptance |
| ChatAccess.MetAdmission | src/cellprotocol/cells/chat.py:229-266 | an admission condition is met exactly when the chat's own state says so |
| ChatAccess.OnlyMembersGetIn | src/cellprotocol/cells/chat.py:203-225 | with admission conditions, whoever is let in beyond the owner and the open keys is an accepted invitee with the invited key |
| ChatAccess.OwnersConditions | src/cellprotocol/cells/chat.py:203-212 | only the owner sets the admission conditions, whatever contracts grant |
| ChatAccess.ProofBackedExactly | src/cellprotocol/cells/chat.py:229-246 | invitationAccepted holds exactly for an accepted member with a stored acceptance of an unexpired artifact |
| ChatAccess.SignsAloneExactly | src/cellprotocol/cells/chat.py:256-276 | once the admission conditions are set, whoever gets a contract meets all of them, and without the owner's word that is enough exactly if there are any |
| ChatAccess.StepBarred | src/cellprotocol/cells/chat.py:487-637 | a revoked or unknown identity stays so through a call exactly when the call does not accept, decline or invite it |
| ChatAccess.RevokedStaysOut | src/cellprotocol/cells/chat.py:203-259 | over whole runs: after revokeInvites names u, no get or set by u succeeds outside the open keys while there are admission conditions and nobody accepts, declines or invites u |
| ChatAccess.DeclineReadmits | src/cellprotocol/cells/chat.py:521-637 | declining is enough to undo a revocation: decline, a new artifact and its acceptance make any revoked invitee a member again |
| ChatAccess.ReadmittedExactly | src/cellprotocol/cells/chat.py:521-637 | in any state, an invitee with a readable key and an obtainable artifact becomes a member again in some run without lifting calls if and only if it is not barred |
| ChatAccess.MembersContractCounts | src/cellprotocol/cells/chat.py:203-218 | and its old contract then opens the chat |
| ChatCell.ChatRoom.InviteIdentities | src/cellprotocol/cells/chat.py:487-503 | the loop over people gives the specified invitations |
| ChatCell.ChatRoom.GenerateInvitationArtifacts | src/cellprotocol/cells/chat.py:521-559 | records, artifacts and consumed are as specified, in any order of targets |
| ChatCell.ChatRoom.AcceptInvitationArtifact | src/cellprotocol/cells/chat.py:579-626 | state and answer are as specified |
| ChatCell.ChatRoom.SetStatuses | src/cellprotocol/cells/chat.py:628-637 | all targets change or none |
| InviteLanding.RunKeeps | src/cellprotocol_scaffold/invite_landing.py:162-389 | in every run human codes and held request ids are distinct, a ticket holds at most its limit (1 to 20), every stored reply is held, handed out once or purged with its ticket, and no request id is twice in the inbox |
| InviteLanding.CollectedIsReceived | src/cellprotocol/cells/invitation.py:536-566 | a collected reply whose answer arrives and that verifies is in the inbox, once by its id, from then on |
| InviteLanding.ReceiveOnce | src/cellprotocol/cells/invitation.py:549-560 | one answer adds each verifying new id once and nothing else |
| InviteLanding.TokenIsFixed | src/cellprotocol_scaffold/invite_landing.py:179-223 | over any run a published ticket keeps token, code, key, limit and expiry, as long as no purge comes more than a day after that expiry |
| InviteLanding.CollectExactly | src/cellprotocol_scaffold/invite_landing.py:245-289 | collecting gives and takes exactly the ticket's replies when the key's digest is the stored one, and otherwise changes nothing |
| InviteLanding.WrongKeysTakeNothing | src/cellprotocol_scaffold/invite_landing.py:245-289 | over any run in which every collect of a ticket has another key and no purge takes it, no reply of that ticket leaves the landing |
| InviteLanding.IssuerGetsAll | src/cellprotocol_scaffold/invite_landing.py:192-289 | after any such run the status key it was published with collects every reply stored for it in the meantime |
| InviteLanding.WithdrawnTakesNoReply | src/cellprotocol_scaffold/invite_landing.py:225-389 | a withdrawn ticket stays withdrawn and stores no reply in any run |
| InviteLanding.PublishExactly | src/cellprotocol_scaffold/invite_landing.py:192-223 | a publication becomes a ticket with its terms, its key's digest and a limit from 1 to 20 exactly when it is readable, in time and its id and code are free |
| InviteLanding.PublishAnswers | src/cellprotocol_scaffold/invite_landing.py:192-223 | each answer to a publication, exactly when it is given |
| InviteLanding.RevokeExactly | src/cellprotocol_scaffold/invite_landing.py:225-243 | a withdrawal marks the ticket exactly when the notice verifies |
| InviteLanding.RevokeAnswers | src/cellprotocol_scaffold/invite_landing.py:225-243 | each answer to a withdrawal, exactly when it is given |
| InviteLanding.ReplyExactly | src/cellprotocol_scaffold/invite_landing.py:359-389 | a reply is stored exactly when the ticket is neither withdrawn nor expired, the reply verifies, there is room and its id is new |
| InviteLanding.ReplyAnswers | src/cellprotocol_scaffold/invite_landing.py:359-389 | each answer to a reply, exactly when it is given, in the order of the checks |
| InviteLanding.PurgeExactly | src/cellprotocol_scaffold/invite_landing.py:179-188 | exactly the tickets more than a day past expiry go, with exactly their replies |
| InviteLanding.InviteLanding.PublishTicket | src/cellprotocol_scaffold/invite_landing.py:192-223 | answer and store are as specified: known id, taken code, new ticket |
| InviteLanding.InviteLanding.RevokeTicket | src/cellprotocol_scaffold/invite_landing.py:225-243 | answer and store are as specified |
| InviteLanding.InviteLanding.CollectReplies | src/cellprotocol_scaffold/invite_landing.py:274-289 | the caller gets exactly the ticket's replies and the store keeps exactly the others |
| InviteLanding.InviteLanding.StoreReply | src/cellprotocol_scaffold/invite_landing.py:359-389 | answer and store are as specified: state, signature, limit, repeated id |
| InviteLanding.InviteLanding.PurgeExpired | src/cellprotocol_scaffold/invite_landing.py:179-188 | exactly the tickets a day past expiry go, with their replies, and both are counted |
| InviteLanding.Pull | src/cellprotocol/cells/invitation.py:549-560 | the inner loop computes the specified inbox |
| RateLimiter.AtMostMaxInAnyWindow | src/cellprotocol_scaffold/invite_landing.py:147-159 | any half-open interval of the window's length holds at most max_attempts admitted calls of a key |
| RateLimiter.BlockHolds | src/cellprotocol_scaffold/invite_landing.py:147-159 | while a block lasts nothing is admitted or counted |
| RateLimiter.PrunedDecidesAsFull | src/cellprotocol_scaffold/invite_landing.py:147-159 | the pruned list and the one remembered block decide as the full history would |
| RateLimiter.OutcomeExactly | src/cellprotocol_scaffold/invite_landing.py:147-159 | said of the log of earlier calls: blocked exactly within a block that began, over exactly with max_attempts calls, outside blocks, already in the window |
| RateLimiter.WaitExactly | src/cellprotocol_scaffold/invite_landing.py:147-159 | the seconds to wait: the first whole number above the rest of the block, or its whole length without the fraction, and none for an admitted call |
| RateLimiter.Limiter.RecordAttempt | src/cellprotocol_scaffold/invite_landing.py:147-159 | the kept state, the seconds to wait and the other keys are as specified |
| KeyPath.GetAfterSet | src/cellprotocol/keypath.py:112-189 | what was set is read back, on keys, non-negative indices and [k=v] steps followed by another key than k |
| KeyPath.FailureChangesNothing | src/cellprotocol/keypath.py:93-189 | on a clean path, [k=v] and leading negative indices included, a set that raises leaves the tree as it was |
| KeyPath.FailureExactly | src/cellprotocol/keypath.py:93-189 | ... and only there: for every path whose match values are scalars, sets that raise leave all trees alone if and only if the path is clean |
| KeyPathText.ParsedIsScalar | src/cellprotocol/keypath.py:16-84 | the match values of every path that is parsed from a text are scalars |
| KeyPath.SetLeavesOthers | src/cellprotocol/keypath.py:112-189 | every successful get on a diverging path is unchanged |
| KeyPath.SecondSetAbsorbs | src/cellprotocol/keypath.py:133-189 | a second set at the same path absorbs the first, and whether a set returns does not depend on the value |
| KeyPath.GetExactly | src/cellprotocol/keypath.py:112-130 | a get gives v exactly if the path's steps lead to v, one value at a time, [k=v] to the first matching item |
| KeyPath.KeySays | src/cellprotocol/keypath.py:145-189 | a set below a key: other keys and their order stay, null becomes a new container, and anything but a list a new list in front of [k=v] |
| KeyPath.IndexSays | src/cellprotocol/keypath.py:93-98 | a set at an index: counted from the end if negative, new containers up to it if too large, other items stay |
| KeyPath.AppendSays | src/cellprotocol/keypath.py:142-146 | a set at [+]: one new item at the end |
| KeyPath.MatchSays | src/cellprotocol/keypath.py:101-109 | a set at [k=v]: in the first matching item or a new one at the end; last, a dict is merged in and another value replaces the item |
| KeyPath.UpdateSays | src/cellprotocol/keypath.py:179-184 | merging a dict: its members win, the others stay |
| KeyPathMemory.SetRefines | src/cellprotocol/keypath.py:133-189 | writing in place into dicts and lists in memory refines the set on values: the tree at the root becomes the one KeyPath.SetPath gives, also when it raises half way; no object outside the tree is written, and the tree gains new objects only |
| KeyPathMemory.Memory.SetKeyPath | src/cellprotocol/keypath.py:133-189 | the loop over the tokens leaves the memory of that in-place form, and so the tree of SetPath for every root that is a tree |
| KeyPathMemory.DescendOpens | src/cellprotocol/keypath.py:138-166 | one turn of the loop makes in place the containers that the value form makes, and goes on in the matching child |
| KeyPathMemory.Memory.EnsureListSlot | src/cellprotocol/keypath.py:93-98 | the padding loop and the replacement of a null slot |
| KeyPathMemory.Memory.FindMatch | src/cellprotocol/keypath.py:101-109 | the first matching item, or a new one at the end |
| KeyPathMemory.Memory.PutLast | src/cellprotocol/keypath.py:168-189 | the last token: the value is copied first, then stored, appended, or merged into the matching dict |
| KeyPathMemory.GetRefines | src/cellprotocol/keypath.py:112-130 | walking through memory reaches an object standing for what KeyPath.GetPath gives, and fails exactly when that does |
| KeyPathMemory.SetThenGet | src/cellprotocol/keypath.py:112-189 | the laws carry over to memory: what was set is what is reached, and a set on a clean path that raises leaves the root standing for the same tree |
| Boxes.CopyIsCopy | src/cellprotocol/value.py:35-42 | from_json_value makes a tree of new objects for the same value and writes nothing else |
| Boxes.OthersUntouched | src/cellprotocol/keypath.py:168-189 | a tree apart from the one that is set, the caller's own value for one, keeps its value and stays apart |
| KeyPathText.ParseKeyPath | src/cellprotocol/keypath.py:45-84 | the index and segment loop parses as the recursive reading does |
| KeyPathText.ParseShown | src/cellprotocol/keypath.py:45-84 | a path written token by token parses back to its tokens |
| KeyPathText.ParseExactly | src/cellprotocol/keypath.py:45-84 | every text: it parses to a path if and only if, without surrounding white space, it can be cut into names, dots and boxes that mean that path |
| KeyPathText.BracketExactly | src/cellprotocol/keypath.py:62-78 | what the text of a box means: [+], a key and a value around its first =, or an index |
| KeyPathText.IntExactly | src/cellprotocol/keypath.py:35-38 | a text is an integer exactly if it is groups of digits, joined by underscores, behind at most one sign |
| PyText.StripExactly | src/cellprotocol/keypath.py:45-48 | stripping takes the white space in front and behind, and nothing else |
| CellState.OneTaskAtATime | src/cellprotocol/general_cell.py:19-46 | for any number of tasks and nested entries one task is inside at a time, depth is its nesting, exits by others raise, and only the owner writes |
| CellState.TurnsExactly | src/cellprotocol/general_cell.py:27-46 | a step lets a task in exactly when nobody else is inside, and else makes it wait; nested entries and exits count one each |
| CellState.EventsReplay | src/cellprotocol/general_cell.py:150-165 | replaying the pushed cell.update events from the first storage gives the storage, in every interleaving whose failed writes are on clean paths, or start in a dict with a step that is no key |
| CellState.ReplaysExactly | src/cellprotocol/general_cell.py:150-165 | for each path text: all runs that write under it, from any dict, replay if and only if its path is clean, starts with no key, or does not parse |
| CellState.HarmBreaksReplay | src/cellprotocol/general_cell.py:150-165 | on every other path the run that enters an empty cell and writes once raises and leaves what no event tells of |
| CellState.WritesInTurn | src/cellprotocol/general_cell.py:150-165 | in every run the storage is that of the writes one after the other, and the events are those writes that returned, in order |
| CellState.ReentrantLock.Enter | src/cellprotocol/general_cell.py:27-37 | entering again, taking the free lock or having to wait |
| CellState.ReentrantLock.Exit | src/cellprotocol/general_cell.py:39-46 | leaving one level, freeing the lock at the last, raising for anyone else |
| BridgeClient.ReturnsItsOwn | src/cellprotocol/bridge.py:430-524 | in every interleaving a request that returns got the first command with its own cid read since it registered, that command completed no other request, and the cid is no stream's |
| BridgeClient.FateExactly | src/cellprotocol/bridge.py:430-524 | in every run each request ends as the first step that concerns it after it registered says: its command read, its timeout, its failed send, the end of the loop; else it waits |
| BridgeClient.StreamHears | src/cellprotocol/bridge.py:504-512 | an open stream hears every command with its cid until it is dropped or the loop ends |
| BridgeClient.SignedExactly | src/cellprotocol/bridge.py:526-548 | the challenges answered are those asked for, each the first time, in order |
| BridgeClient.NoneLeftWaiting | src/cellprotocol/bridge.py:486-596 | once the receive loop has ended no registered future is unresolved |
| BridgeClient.SignsOnce | src/cellprotocol/bridge.py:526-548 | no signing challenge is signed twice |
| BridgeClient.StepKeeps | src/cellprotocol/bridge.py:224-596 | every step keeps cids apart and futures tied to what was read |
| BridgeClient.Client.RouteCommand | src/cellprotocol/bridge.py:504-512 | one pass of the receive loop is the model's delivery step: the command goes to its stream, to its waiting request, or to nobody |
| BridgeClient.Client.FailPending | src/cellprotocol/bridge.py:587-591 | exactly the waiting futures fail and none stays registered |
| BridgeClient.Client.Close | src/cellprotocol/bridge.py:513-524 | the end of the receive loop is the model's last step: futures failed, requests and streams dropped |
| BridgeClient.Client.AnswerChallenge | src/cellprotocol/bridge.py:526-548 | a challenge is answered exactly if it is new, and the state is the model's |
| Wire.ModelBack | src/cellprotocol/interop/models.py:64-101 | from_wire of to_wire is the model, for every list of field specifications: optional, defaulted, omitted, written as null, nested |
| Wire.TextBack | src/cellprotocol/interop/models.py:64-101 | a model without raw fields survives its canonical text in either key order unchanged |
| Wire.RawTextBack | src/cellprotocol/interop/models.py:64-101 | a model with raw fields comes back alike, the members of raw values in printing order, and writes the identical text again |
| Wire.AlikeSignsAlike | src/cellprotocol/interop/models.py:83-84 | what is signed of it after the wire is the same text as before, whatever is excluded |
| InviteTicket.TicketBack | src/cellprotocol/interop/models.py:437-484 | an invitation ticket survives its text |
| InviteTicket.TokenBack | src/cellprotocol/interop/models.py:494-511 | every typed ticket has a token, and from_token reads it as that ticket if and only if its version is 1 |
| LinkModels.CompletionTyped | src/cellprotocol/interop/identity_link.py:423-452 | the fields of every completion envelope that carries a credential are as its specifications say, so all of ModelBack applies to it |
| LinkModels.CompletionRead | src/cellprotocol/interop/identity_link.py:423-452 | envelopes with alike fields differ at most in the order inside the credential's raw values |
| Enrollment.WireBack | src/cellprotocol/interop/identity_link.py:149-205 | an envelope, its credential and its presentation with the date and shape checks of their from_wire, is from_wire of its to_wire |
| Enrollment.TextKeepsVerdict | src/cellprotocol/interop/identity_link.py:678-710 | sent as text in either key order, any such envelope is read and gets the same verdict and record as before |
| Enrollment.BuiltCompletes | src/cellprotocol/interop/identity_link.py:678-792 | what approve_enrollment and bind_and_sign build is read back from its text, and passes verify_completion exactly when stated conditions hold, up to the floored expiry second; the record is for the requested key and this approval |
| Enrollment.HonestCompletes | src/cellprotocol/interop/identity_link.py:678-792 | with honest signers only the flow's conditions are left: the signatures, put in after signing, verify on the other side |
| Enrollment.ApprovalSignedOnce | src/cellprotocol/interop/identity_link.py:752-770 | putting the signature into an approval does not change what is signed of it |
| SignedText.RequestSays | src/cellprotocol/interop/models.py:267-303 | what is signed of a request has each field below its own key, absent ones not at all, and no proof |
| SignedText.ApprovalSays | src/cellprotocol/interop/models.py:347-400 | the same of an approval |
| SignedText.RequestInTurn | src/cellprotocol/interop/models.py:267-303 | in the signed text of every request members stand in Foundation's order, so the requested domains before the request id |
| Enrollment.IdealWorldExists | src/cellprotocol/interop/identity_link.py:119-136 | there are a calendar, honest keys and a flow that meet all that these theorems take at once |
| Enrollment.CompletionIsBounded | src/cellprotocol/interop/identity_link.py:528-710 | whatever passes: the record stays within the request, the issuer is another identity and signed an approval of this very request and the credential, and the presentation answers this challenge |
| Enrollment.VerdictExactly | src/cellprotocol/interop/identity_link.py:520-710 | any envelope passes verify_completion if and only if request, approval, credential and presentation meet the conditions written out on their fields, and the record is made of those fields |
| Enrollment.RefusalIsTrue | src/cellprotocol/interop/identity_link.py:520-710 | each refusal names something that is wrong with the envelope |
| Enrollment.ApproveExactly | src/cellprotocol/interop/identity_link.py:713-788 | when approve_enrollment returns, and approval and credential member by member |
| Enrollment.BindExactly | src/cellprotocol/interop/identity_link.py:326-355 | when bind_and_sign returns, and the presentation member by member |
| Enrollment.ReadExactly | src/cellprotocol/interop/identity_link.py:149-205 | which payloads are read: fields as specified, raw members in their shapes, dates as dates |
| Enrollment.ApprovalPasses | src/cellprotocol/interop/identity_link.py:560-619 | the approval checks pass exactly on issuer type, distinct identity, fresh authentication, evidence, unused id, expiry, lists and signature |
| Enrollment.ClaimPasses | src/cellprotocol/interop/identity_link.py:622-655 | the issued credential passes, its raw subject decoded, exactly while it is valid and its signature verifies |
| Enrollment.IssuedSubject | src/cellprotocol/interop/identity_link.py:235-262 | the subject of an issued credential decodes to what was put in |
| Enrollment.PresentationPasses | src/cellprotocol/interop/identity_link.py:304-355 | the signed presentation passes exactly when the holder's signature verifies |
| Anchor.CompletesOnce | src/cellprotocol/cells/entity_anchor.py:230-264 | once an approval id has completed, every later completion with it is refused and writes nothing, as long as no colliding id is completed in between, so a revoked link is not brought back |
| Anchor.SafeCompletesOnce | src/cellprotocol/cells/entity_anchor.py:230-264 | ids over [A-Za-z0-9_-] never collide |
| Anchor.ForgetsExactly | src/cellprotocol/cells/entity_anchor.py:230-256 | one action forgets a used id if and only if it completes an id that collides with it |
| Anchor.RefusedExactly | src/cellprotocol/cells/entity_anchor.py:230-256 | over any run a completion that is otherwise verified is refused if and only if its id is blank or is the last completed under its key |
| Anchor.CollidingIdCompletesTwice | src/cellprotocol/cells/entity_anchor.py:230-256 | from fresh storage, two colliding ids a and b complete as a, b, a |
| Anchor.CompletionIsWhole | src/cellprotocol/cells/entity_anchor.py:236-264 | in every run a completion is refused without a write or writes record, proof and approval id together |
| Anchor.ActionExactly | src/cellprotocol/cells/entity_anchor.py:177-286 | an action goes through exactly when it is granted (no readable seal and a proven owner; accepted; verified with an id that is neither blank nor used; a readable record of no genesis link), and otherwise writes nothing |
| Anchor.ActionStores | src/cellprotocol/cells/entity_anchor.py:177-286 | what can be read at each path after an action went through |
| Anchor.ActionLeaves | src/cellprotocol/cells/entity_anchor.py:177-286 | every other plain path reads as before |
| Anchor.SafeKeySays | src/cellprotocol/interop/identity_link.py:843-844 | letters, digits, _ and - of an id stay in its key, any other character becomes _ |
| Anchor.SealIsForever | src/cellprotocol/cells/entity_anchor.py:177-208 | the stored genesis seal never changes and no second genesis happens |
| Anchor.RevokedLinkStaysRevoked | src/cellprotocol/cells/entity_anchor.py:236-286 | a link that was completed and then revoked holds a revoked record in every run of revocations, of replays of its completion, and of actions for other link keys, as long as no colliding id is completed |
| Anchor.EmptyIdReplacesAll | src/cellprotocol/cells/entity_anchor.py:236-256 | a completion for the empty link id puts its record in the place of the dict of all records |
| Anchor.ActionPathsParse | src/cellprotocol/interop/identity_link.py:847-848 | the texts of the key paths mean the paths used, for every id, the empty one included |
| AnchorCell.EntityAnchor.SealGenesis | src/cellprotocol/cells/entity_anchor.py:177-208 | writes in order, up to the first that raises, as specified |
| AnchorCell.EntityAnchor.CompleteEnrollment | src/cellprotocol/cells/entity_anchor.py:236-264 | refused, or record, proof and approval id written in order |
| AnchorCell.EntityAnchor.CompleteFromWire | src/cellprotocol/cells/entity_anchor.py:236-264 | the payload is read as an envelope, checked by verify_completion against the ids in the storage, and recorded as the model's completion; otherwise nothing is written |
| AnchorCell.UsedOnlyRefuses | src/cellprotocol/interop/identity_link.py:560-619 | the used ids only ever add a refusal |
| AnchorCell.RecordReadsBack | src/cellprotocol/interop/identity_link.py:390-420 | the stored record reads back as the record it was made of |
| AnchorCell.ProofReads | src/cellprotocol/cells/entity_anchor.py:236-256 | the proof stored beside a record: request hash, approval id, credential and presentation ids, time |
| AnchorCell.CompletedThenRevoked | src/cellprotocol/cells/entity_anchor.py:236-286 | a completed link reads as the record of verify_completion, can be revoked unless it is the genesis link, and then reads as that record with status revoked and the time |
| AnchorCell.OtherRecordExactly | src/cellprotocol/cells/entity_anchor.py:236-256 | a readable record of one link is, after the completion of a link with another key, still readable if and only if the completed id is not empty, and then unchanged |
| AnchorCell.EntityAnchor.RevokeLink | src/cellprotocol/cells/entity_anchor.py:266-286 | refused, or record and proof record written in order |
| Resolver.OneInstancePerKey | src/cellprotocol/resolver.py:70-84 | in every interleaving of tasks, failures and cancellations all answers for a scope key are one instance, and each key is built once |
| Resolver.AnswersExactly | src/cellprotocol/resolver.py:70-84 | in every run a task that gets the lock is given the instance kept for its key, or builds one that is its answer and kept from then on; failure or cancellation keeps nothing and frees the lock |

## Left out

- Envelopes.DecodeExact: bodies with fractional or exponent numbers, which the source accepts in their canonical form, are outside the model.
- Wire.ModelBack: a field of kind number takes whole numbers; floats are not modelled.
- KeyPathText.ParseKeyPath: reads an integer (KeyPathText.ReadInt) as ASCII digits with single underscores between them, where Python's int also takes other decimal digits of Unicode and refuses more than 4300 of them; the value of a [k=v] step that is a fraction stays text.
- KeyPath.FailureExactly: is for match values that are scalars, which all path texts give (KeyPathText.ParsedIsScalar); a token built by hand with a dict or list in it is not covered.
- InviteTicket.TokenBack: a token whose bytes are JSON in UTF-16 or UTF-32, or start with a byte order mark, is refused here, where json.loads would read it; to_token writes none.
- Enrollment.BuiltCompletes: the calendar is a pair of functions between whole seconds and texts that end in Z, inverse on all seconds, where the source's stops at the year 9999.
- Handshake.Completion: takes "every frame and body fits in 16384 bytes and the signed bytes in 8192" as conditions of its own instead of deriving them from string lengths.
- Distances.DiameterAndEffective: computes 0.9 times a list length exactly and gives the effective diameter as the integer it is, where the source uses floats.
- KeyPathMemory.GetRefines: stops at the object get_keypath reaches; the copy it then returns is made by the source with the from_json_value of Boxes.CopyIsCopy.
- KeyPathMemory.FindOrAdd: a [k=v] token given as a token with a dict or list as its value is copied into a new item, where the source stores the token's own object; path texts only give scalars.
- CellState.EventsReplay: is for a cell without set handlers; with handlers the source gives no such promise.
- Base64.DecodeEncode: padding after complete quads is ignored as CPython 3.11 does; later versions may refuse it.
- Ed25519, SHA-256, operating system randomness and uuid.UUID: parameters of the model, with an injective digest, unforged honest signatures and fresh ids stated where a theorem needs them.
- Times are real seconds; rounding of floats, the calendar of ISO 8601 texts and the float times inside a signing challenge's text are not modelled (that text is a pair of inverse parameters).
- Canonical JSON: keys are ASCII for case folding; non-integer numbers and lone surrogates are left out; frames and signed texts are modelled as text, with their length in UTF-8 bytes.
- Channel endpoints parsed from URLs (`Endpoint.from_url`), and ChannelClient.receive, which only chains the methods modelled here.
- Reading an Agreement from JSON, except the permission of a grant; explore contracts, attachments and flows of a cell.
- Chat messages, drafts, participants and presentation rows.
- InvitationCell.prepare, refresh_status, revoke and the link texts; the HTTP answers, pages and routes of the landing.
- Web socket input and output, asyncio itself (tasks are steps of a state machine), and the bridge's connect handshake.
- `entity.batchPersist` and plain owner writes below the anchor; whether an action was allowed at all is a parameter.
- Bridge identity vault, file vaults, configuration loading, remote routes and caches of the resolver.
- Spectral, entropy, null-model and bootstrap metrics, which are floating point.
