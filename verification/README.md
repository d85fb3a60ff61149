# CoreDNS, verified models

This project models the parts of CoreDNS that hold state, and proves what they promise.

- **The zone store** (`plugin/file`). A left-leaning red-black tree of owner names, ordered
  label by label from the right. `Llrb`, `NameTree` and `TreeOps` state and prove the tree
  algorithms on values; `HeapTree` and `OwnerTree` carry them out in place on linked nodes and
  are proved equal to them; `TreeRuns` covers every run of operations. `Names` is the order.
- **The zone** on top of it. `ZoneData` and `ZoneStore` are record insertion and listing,
  `Transfer` the outgoing and incoming zone transfer and their round trip. `LookupSpec` says
  what a query is answered with, `ZoneLookup` computes it on the linked tree,
  `LookupTheorems` proves when each kind of answer is given, `LookupAnswers` what it holds,
  and `WildcardWitness` has a zone in which a wildcard covers an empty non-terminal.
- **The error consolidator** (`Consolidator`), as a transition system over its atomic accesses.
- **The forward connection pool**: the manager's branches (`ConnPool`) and the rendezvous of
  manager, dialers and yielders (`ConnProtocol`).
- **The watch manager** (`WatchManager`), as a transition system under its mutex.
- **Reply truncation** (`Scrub`).
- **Singleflight** (`Singleflight`), as a transition system over its lock sections, the
  assignment of the result and the wait.
- **The response cache**: the sharded store (`ShardStore`), classes, TTLs and items
  (`CacheItem`), and runs of the plugin (`ResponseCache`).

Conventions. A fully qualified name is the sequence of its labels, leftmost first; in the
response cache, where names are only hashed and compared, it is a string. Time is an integer
that never decreases. A run is a list of events, and an event that is not enabled does not
happen; theorems about `After(...)` hold for every run. Code whose fields change in place is a
class whose methods are proved against functions on values, and the properties are proved about
those functions.

Lemmas that are proved without induction although they equate values in their premises say so
with `{:induction false}`.

Where code and comment or standard differ, or the code misses what it is there for, the model
follows the code:

- `less` says it gives the canonical order of RFC 4034, but compares labels with their dot.
  `Names.CanonicalExactly` says exactly when the two agree.
- Serial comparison at distance 2^31, which RFC 1982 leaves undefined, is decided
  (`Transfer.SerialLessIsCircular`).
- A zone with nothing below its apex denies its own apex name
  (`LookupTheorems.BareApexDenied`); `LookupTheorems.NameErrorExactly` says exactly which names
  are denied.
- A wildcard is tried before the probe for an empty non-terminal, and the wildcard that counts
  is the deepest one seen on the walk. `LookupAnswers.EmptyNonTerminalExactly` says exactly when
  an empty non-terminal is answered as such, `WildcardWitness.WildcardCoversNonTerminal` has one
  that is not.
- A positive response that is cached while a denial for the same question is still good is not
  served until the denial runs out. `ResponseCache.CachedIsServed` gives the exact condition,
  `ResponseCache.DenialHidesAnswer` a run.
- Shutdown of the error handler stops the timer stored in each pattern. A goroutine that is late
  to store its timer can hide a newer one, which then goes off after the shutdown.
  `Consolidator.ShutdownFlushes` says exactly when nothing is left, `ShutdownMissesTimer` has a
  run where something is.
- The plugins are told to stop watching a name when its last watch is canceled, but not when it
  goes because a change could not be sent. `WatchManager.WatchesWanted` states what holds,
  `FailedSendKeepsWatching` has a run.

## Model

| member | source | states |
|---|---|---|
| Names.Less | plugin/file/tree/less.go:17-43 | the right-to-left loop over labels computes `Compare`, the order the tree is kept in |
| Names.CompareIsFlatOrder | plugin/file/tree/less.go:17-43 | the loop's order is the byte order of one string: the labels from the right, each with its dot |
| Names.CompareTotalOrder | plugin/file/tree/less.go:17-43 | on escape-free names `less` is a strict total order: 0 only for equal names, antisymmetric, transitive |
| Names.SubDomainIsFlatPrefix | plugin/file/tree/less.go:17-43 | a name lies at or under another exactly when the other's flattened form is a prefix of its own |
| Names.SubDomainsContiguous | plugin/file/tree/less.go:17-43 | the names at or under a name form one interval of the order that starts at that name |
| Names.CanonicalExactly | plugin/file/tree/less.go:11-43 | `less` agrees with the canonical order of section 6.1 of RFC 4034, which its comment claims, if and only if the first differing labels are not a label and its extension by a byte below the dot |
| Names.CanonicalOrderMissed | plugin/file/tree/less.go:30-41 | the claim fails for `a-.org.` and `a.org.` |
| Names.ToLowerIdempotent | plugin/file/zone.go:85-86 | lower-casing a name twice is lower-casing it once |
| Names.LowerLetters | plugin/file/zone.go:85 | each capital becomes the small letter in its place, and no other byte changes |
| Records.LowerNames | plugin/file/zone.go:85-121 | insertion lower-cases the owner and every name inside the record data, and changes nothing else |
| Records.LowerIdempotent | plugin/file/zone.go:85-121 | records already stored are left as they are when they are inserted again, as a transfer does |
| Records.AddedExactly | plugin/file/tree/elem.go:62-82 | a record leaves the list alone exactly when one with equal data is there, and is appended otherwise; adding it again changes nothing |
| Records.EqualExactly | plugin/file/tree/elem.go:113-129 | two records are found equal exactly when their data is the same and is an address or a mail exchanger |
| Records.NewElem | plugin/file/tree/elem.go:12-16 | a new element holds the one record, under its type |
| Records.AddRecord | plugin/file/tree/elem.go:62-82 | only the list of the record's own type changes |
| Llrb.RotateLeft | plugin/file/tree/tree.go:66-74 | a left rotation keeps the in-order listing |
| Llrb.RotateRight | plugin/file/tree/tree.go:77-85 | a right rotation keeps the in-order listing |
| Llrb.FlipColors | plugin/file/tree/tree.go:88-93 | a colour flip keeps the in-order listing |
| Llrb.FixUp | plugin/file/tree/tree.go:97-111 | repairing a node keeps the in-order listing |
| Llrb.FixUpDeleted | plugin/file/tree/tree.go:97-111 | after a deletion below, `fixUp` restores colour and black-height rules at the node |
| Llrb.InsertFix | plugin/file/tree/tree.go:200-216 | the repairs at the end of `insert` keep the in-order listing |
| Llrb.InsertFixLeft | plugin/file/tree/tree.go:200-216 | after inserting on the left they leave a balanced node, or two reds in a row that the parent repairs |
| Llrb.InsertFixRight | plugin/file/tree/tree.go:200-216 | after inserting on the right they leave a balanced node of the same black height, or a double red on the left that the parent repairs |
| Llrb.MoveRedLeft | plugin/file/tree/tree.go:113-124 | borrowing a red for the left child keeps the listing |
| Llrb.MoveRedLeftShape | plugin/file/tree/tree.go:113-124 | afterwards the left child, or its left child, is red and all black heights still match |
| Llrb.MoveRedRight | plugin/file/tree/tree.go:126-133 | borrowing a red for the right child keeps the listing |
| Llrb.MoveRedRightShape | plugin/file/tree/tree.go:126-133 | afterwards the right child can give up a node, and all black heights still match |
| Llrb.StepLeftDone | plugin/file/tree/tree.go:233-245 | going left, deleting there and fixing up keeps the invariant a deletion promises its caller |
| Llrb.StepRightDone | plugin/file/tree/tree.go:261-276 | going right, deleting there and fixing up keeps the same invariant |
| Llrb.DeleteMin | plugin/file/tree/tree.go:233-245 | removes exactly the first of the listing; black height and colours stay within what the parent repairs |
| Llrb.DeleteMax | plugin/file/tree/tree.go:261-276 | removes exactly the last of the listing, with the same guarantee |
| Llrb.BalancedSize | plugin/file/tree/tree.go:57-217 | a tree of black height h has at least 2^h - 1 nodes and is at most 2h high, one more under a red root |
| Llrb.HeightLogarithmic | plugin/file/tree/tree.go:153-166 | a valid tree of n nodes satisfies 2^height <= (n+1)^2, that is, height <= 2 log2(n+1) |
| NameTree.PutSorted | plugin/file/tree/tree.go:178-217 | putting a record into a strictly increasing listing leaves it strictly increasing |
| NameTree.PutFind | plugin/file/tree/tree.go:178-217 | inserting changes the element of exactly one name and the count by 0 or 1 |
| NameTree.DropSorted | plugin/file/tree/tree.go:298-341 | dropping a name keeps the listing strictly increasing |
| NameTree.DropFind | plugin/file/tree/tree.go:298-341 | deleting removes exactly the given name, nothing when it is absent, and the count follows |
| TreeOps.InsertBalanced | plugin/file/tree/tree.go:178-217 | `insert` keeps the left-leaning red-black rules up to a double red at the root |
| TreeOps.InsertListing | plugin/file/tree/tree.go:178-217 | `insert` on the tree is the sorted insertion on the listing, and its counter is the growth |
| TreeOps.InsertValid | plugin/file/tree/tree.go:170-217 | Tree.Insert takes valid trees to valid trees with the record put in |
| TreeOps.DeleteGoesLeft | plugin/file/tree/tree.go:312-318 | in `delete`'s left branch the child the recursion enters can give up a node and holds the name if any does |
| TreeOps.DeleteGoesRight | plugin/file/tree/tree.go:319-336 | the same for the right branch, after the rotation and the borrowing, including that the minimum of the right subtree can be deleted |
| TreeOps.Delete | plugin/file/tree/tree.go:311-341 | every branch of `delete` leaves black height and colours within what the parent repairs |
| TreeOps.DeleteListing | plugin/file/tree/tree.go:311-341 | `delete` on the tree is dropping the name from the listing, and its counter is the loss |
| TreeOps.DeleteIgnoresRootColor | plugin/file/tree/tree.go:298-309 | a black root with two black children, which the borrowing flips, deletes exactly like a red one once the root is painted black |
| TreeOps.DeleteValid | plugin/file/tree/tree.go:298-341 | deleteNode takes every valid tree to a valid tree whose names are the old ones without the given name |
| TreeOps.DeleteEndsValid | plugin/file/tree/tree.go:220-276 | DeleteMin and DeleteMax take valid trees to valid trees without the first, without the last name |
| TreeOps.SearchIsFind | plugin/file/tree/tree.go:153-166 | the binary search agrees with a linear scan of the listing |
| TreeOps.FloorIsPrev | plugin/file/tree/tree.go:384-399 | `floor` gives the greatest owner at or before the name |
| TreeOps.CeilIsNext | plugin/file/tree/tree.go:413-428 | `ceil` gives the smallest owner at or after the name |
| HeapTree.Elem.constructor | plugin/file/tree/elem.go:12-16 | newElem in memory is `NewElem` |
| HeapTree.Elem.Insert | plugin/file/tree/elem.go:62-82 | Elem.Insert in memory is `AddRecord` |
| HeapTree.RotateLeft | plugin/file/tree/tree.go:66-74 | rewriting the links in place performs the rotation on the represented tree |
| HeapTree.RotateRight | plugin/file/tree/tree.go:77-85 | rewriting the links in place performs the rotation on the represented tree |
| HeapTree.FlipColors | plugin/file/tree/tree.go:88-93 | rewriting the colours in place performs the flip on the represented tree |
| HeapTree.FixUp | plugin/file/tree/tree.go:97-111 | in place, equals `Llrb.FixUp`, touching only nodes of the subtree |
| HeapTree.InsertFix | plugin/file/tree/tree.go:200-216 | in place, equals `Llrb.InsertFix` |
| HeapTree.MoveRedLeft | plugin/file/tree/tree.go:113-124 | in place, equals `Llrb.MoveRedLeft` |
| HeapTree.MoveRedRight | plugin/file/tree/tree.go:126-133 | in place, equals `Llrb.MoveRedRight` |
| HeapTree.DeleteMin | plugin/file/tree/tree.go:233-245 | in place, equals `Llrb.DeleteMin` |
| HeapTree.DeleteMax | plugin/file/tree/tree.go:261-276 | in place, equals `Llrb.DeleteMax` |
| HeapTree.MinNode | plugin/file/tree/tree.go:351-355 | the loop to the left ends at the node of the first element of the listing |
| HeapTree.ReplaceByMin | plugin/file/tree/tree.go:330-332 | the deleted node takes over the element of its right subtree's minimum, which is then deleted there |
| HeapTree.Delete | plugin/file/tree/tree.go:311-341 | in place, equals `TreeOps.Delete`; no node or element is shared or leaked in |
| HeapTree.Insert | plugin/file/tree/tree.go:178-217 | in place, equals `TreeOps.Insert`; every object added is new |
| HeapTree.EraseDeleteMin | plugin/file/tree/tree.go:233-245 | deletion of the minimum does not depend on what the nodes carry |
| OwnerTree.SearchFrom | plugin/file/tree/tree.go:153-166 | the search loop finds what `Search` finds and visits at most height many nodes |
| OwnerTree.FloorFrom | plugin/file/tree/tree.go:384-399 | the recursion over nodes finds what `Floor` finds |
| OwnerTree.CeilFrom | plugin/file/tree/tree.go:413-428 | the recursion over nodes finds what `Ceil` finds |
| OwnerTree.AllFromIsInOrder | plugin/file/tree/all.go:12-21 | the recursion with an accumulator lists the elements in order |
| OwnerTree.Tree.constructor | plugin/file/tree/tree.go:49-53 | the empty tree is valid and lists nothing |
| OwnerTree.Tree.Invariant | plugin/file/tree/tree.go:136-138 | in every valid tree the listing is strictly increasing, Count is its length and the height is logarithmic |
| OwnerTree.Tree.Insert | plugin/file/tree/tree.go:170-175 | keeps validity; the new listing is the old one with the record put in |
| OwnerTree.Tree.DeleteNode | plugin/file/tree/tree.go:298-309 | keeps validity; the new listing is the old one without the name, also when it is absent |
| OwnerTree.Tree.DeleteMin | plugin/file/tree/tree.go:220-231 | keeps validity; drops the first owner, nothing on an empty tree |
| OwnerTree.Tree.DeleteMax | plugin/file/tree/tree.go:248-259 | keeps validity; drops the last owner, nothing on an empty tree |
| OwnerTree.Tree.Search | plugin/file/tree/tree.go:141-150 | finds exactly what a scan of the listing finds, within height many nodes |
| OwnerTree.Tree.Prev | plugin/file/tree/tree.go:372-382 | the greatest owner at or before the name, if any |
| OwnerTree.Tree.Next | plugin/file/tree/tree.go:402-411 | the smallest owner at or after the name, if any |
| OwnerTree.Tree.All | plugin/file/tree/all.go:4-10 | the elements of the listing, in order |
| TreeRuns.StepRefinesApply | plugin/file/tree/tree.go:170-309 | each operation keeps all tree invariants and does to the listing what its plain specification does |
| TreeRuns.Run | plugin/file/tree/tree.go:170-309 | after every run of operations from the empty tree the tree represents the plain listing of that run |
| TreeRuns.RunInvariant | plugin/file/tree/tree.go:153-309 | after every run: red-black and order invariants, Count equals the number of owners, logarithmic height, search equals a scan |
| TreeRuns.StepTouchesOneName | plugin/file/tree/tree.go:170-309 | after every run, an operation changes the records of exactly one name |
| TreeRuns.RunInMemory | plugin/file/tree/tree.go:170-309 | executing a run on the linked nodes ends in a valid tree with the listing of the run |
| ZoneData.InsertOk | plugin/file/zone.go:84-125 | Zone.Insert keeps what every zone satisfies: apex SOA, NS and their signatures in their fields and nowhere in the tree, everything lower-cased and without duplicates |
| ZoneData.InsertExactly | plugin/file/zone.go:84-125 | by type, owner and covered type: an NSEC3 record changes nothing; an apex record changes exactly its own apex field; every other record changes exactly the list of its lower-cased name and type, by the one added record |
| ZoneData.InsertAllView | plugin/file/zone.go:84-125 | after inserting a list of tree records, each name and type holds exactly the list's records of that name and type, first occurrences, in order |
| ZoneStore.Zone.constructor | plugin/file/zone.go:47-60 | a new zone is empty |
| ZoneStore.Zone.Insert | plugin/file/zone.go:84-125 | in memory, the zone becomes what `ZoneData.Insert`, of which `InsertExactly` says what it is, makes of it; exactly NSEC3 and NSEC3PARAM records are refused |
| ZoneStore.ElemRecords | plugin/file/tree/elem.go:35-41 | ranging over the map of types lists, for each type, exactly its records |
| ZoneStore.Zone.All | plugin/file/zone.go:166-187 | the SOA first if there is one, the other apex records in their order, then a listing of the whole tree |
| Transfer.Envelopes | plugin/file/xfr.go:33-51 | the envelopes concatenate to the records; without its first record an envelope counts at most transferLength, and one is cut only when the next record would exceed that |
| ZoneStore.Zone.TransferOut | plugin/file/xfr.go:28-51 | the envelopes concatenate to a listing of the zone and the closing SOA, and are packed |
| Transfer.SameListing | plugin/file/tree/tree.go:141-166 | two strictly increasing listings with the same search results are equal, whatever the tree shapes |
| Transfer.RebuildTree | plugin/file/secondary.go:33-49 | inserting any listing of a tree into an empty one gives the same listing back |
| Transfer.RoundTrip | plugin/file/secondary.go:33-57 | inserting the transfer stream of a zone into an empty zone gives the same apex and the same records at every name and type |
| Transfer.RoundTripOfInserted | plugin/file/secondary.go:33-57 | this holds for every zone built by Zone.Insert that has an SOA |
| Transfer.TransferRoundTrip | plugin/file/secondary.go:33-57 | whatever order the tree's types were listed in, inserting a transfer of a zone into an empty zone gives that zone back |
| ZoneStore.TransferAccepted | plugin/file/secondary.go:33-49 | no record of a transfer is refused by Insert |
| ZoneStore.BuildZone | plugin/file/secondary.go:33-49 | the receiving loop over envelopes and records inserts them all, or stops at the first refused one |
| ZoneStore.Zone.TransferIn | plugin/file/secondary.go:33-57 | on success the tree and apex are replaced as a whole and the zone is no longer expired; on failure nothing changes |
| ZoneStore.Replicate | plugin/file/xfr.go:28-51 | a transfer out and in, on two linked trees, leaves the secondary with the primary's contents |
| Transfer.SerialLessIsCircular | plugin/file/secondary.go:96-102 | the serial comparison is that of section 3.2 of RFC 1982, except that at distance 2^31, where the RFC leaves it undefined, it orders the larger number first |
| LookupSpec.FirstStop | plugin/file/lookup.go:79-149 | the walk from the origin down ends at the first name with a DNAME above the query name or an NS set |
| LookupSpec.Synthesize | plugin/file/dname.go:12-44 | the synthesised CNAME is owned by the query name, and its target is the query name with the DNAME owner's labels replaced by the DNAME target's |
| ZoneLookup.NameFromRight | plugin/file/zone.go:197-217 | the i-th name on the path from the origin to the query name, and when the walk has overshot |
| ZoneLookup.WalkStep | plugin/file/lookup.go:79-102 | one step looks up the name on the path and the wildcard below it |
| ZoneLookup.Walk | plugin/file/lookup.go:79-149 | the label walk stops at the first stop of the path, or ends at the query name with the deepest wildcard seen; it terminates |
| ZoneLookup.GlueRecords | plugin/file/lookup.go:400-434 | the glue loop collects the addresses of the in-zone name servers |
| ZoneLookup.ExtraRecords | plugin/file/lookup.go:438-469 | the loop computes the additional records, of which `ExtraExactly` says what they are |
| ZoneLookup.ChaseChain | plugin/file/lookup.go:299-362 | the CNAME loop gives the records of the bounded chain specification |
| ZoneLookup.FollowChain | plugin/file/lookup.go:299-362 | the answer for a CNAME: the chain, followed inside the zone or outside |
| ZoneLookup.AnswerDname | plugin/file/lookup.go:104-126 | the answer at a DNAME: the record, the synthesised CNAME and what it leads to |
| ZoneLookup.AnswerCut | plugin/file/lookup.go:128-146 | the answer at a zone cut: the NS set, its glue and with DNSSEC its DS |
| ZoneLookup.AnswerFound | plugin/file/lookup.go:156-188 | the answer at an existing name: data, CNAME chain or no data |
| ZoneLookup.AnswerWild | plugin/file/lookup.go:191-224 | the answer from a wildcard, with the owner replaced by the query name |
| ZoneLookup.AnswerNegative | plugin/file/lookup.go:226-266 | the negative answer, with its denial records |
| ZoneLookup.LookupZone | plugin/file/lookup.go:28-267 | Lookup over the linked tree computes `LookupSpec.Lookup` of the zone's contents, for every query in the zone |
| LookupTheorems.NextProbeExact | plugin/file/lookup.go:226-234 | the single Tree.Next probe finds an owner strictly below the name exactly when a scan of the whole tree does |
| LookupTheorems.ApexIsNoCut | plugin/file/zone.go:88-94 | the apex NS set never stops the walk, because Insert keeps it out of the tree |
| LookupTheorems.TopmostCutRefers | plugin/file/lookup.go:128-146 | the topmost NS set on the path gives a Delegation with exactly that set and its glue, with DNSSEC the cut's DS set and the signatures that cover it, and nothing else, except for DS asked at the cut itself |
| LookupTheorems.TopmostDnameRedirects | plugin/file/lookup.go:104-126 | the topmost DNAME above the query name gives its records, the CNAME synthesised from it, each with their signatures and no others, and what the alias leads to |
| LookupTheorems.DelegationExactly | plugin/file/lookup.go:79-149 | Lookup delegates if and only if a cut below the apex comes first on the path |
| LookupTheorems.NameErrorExactly | plugin/file/lookup.go:226-266 | NameError if and only if nothing stops the walk, the name is absent, no wildcard was seen and no owner lies below it |
| LookupTheorems.EmptyNonTerminal | plugin/file/lookup.go:226-266 | for an absent name without wildcard: Success exactly when some owner lies strictly below it, NameError otherwise, with the SOA and no answer |
| LookupTheorems.NoDataExactly | plugin/file/lookup.go:156-188 | NoData if and only if the name exists without the type and without a usable CNAME |
| LookupTheorems.BareApexDenied | plugin/file/lookup.go:226-266 | a zone with nothing but apex records answers other types at its own apex with NameError |
| LookupAnswers.DataAnswered | plugin/file/lookup.go:156-188 | stored data is answered with exactly the records of that name and type, with DNSSEC their signatures and no others, the apex NS set and the hosts the records name |
| LookupAnswers.NoDataAnswered | plugin/file/lookup.go:165-173 | a NoData reply has no answer and no additional records, and as authority exactly the SOA and with DNSSEC the name's own NSEC set and its signatures |
| LookupAnswers.NegativeAnswered | plugin/file/lookup.go:226-266 | the whole reply for a missing name without wildcard: with DNSSEC the NSEC set of the greatest owner at or before the name, for a name error also that for the wildcard at the closest encloser, unless both have the same owner |
| LookupAnswers.AliasAnswered | plugin/file/lookup.go:299-362 | the whole answer for an alias, cyclic ones included, is one connected chain of at most maxChain+2 owners that starts at the query name, and the records of the type, with signatures, at the owner where it ends |
| LookupAnswers.HopExactly | plugin/file/lookup.go:322-332 | an owner of the chain contributes its CNAME records and exactly the signatures that cover them |
| LookupAnswers.DnameChain | plugin/file/lookup.go:104-126 | the answer under a DNAME ends with the bounded connected chain that the synthesised CNAME's target leads to |
| LookupAnswers.WildcardAnswered | plugin/file/lookup.go:191-224 | a missing name is answered from the deepest wildcard on its path with exactly the wildcard's alias or records under the query name, or with none, the SOA and the wildcard's NSEC |
| LookupAnswers.WildcardChain | plugin/file/lookup.go:195-197 | an alias from a wildcard goes under the query name and is followed by the bounded connected chain its target leads to |
| LookupAnswers.EmptyAnswerExactly | plugin/file/lookup.go:191-266 | a missing name gets an empty answer if and only if no wildcard is met on its path or the deepest one has neither a CNAME nor the type |
| LookupAnswers.EmptyNonTerminalExactly | plugin/file/lookup.go:191-234 | an empty non-terminal always succeeds, and gets the empty answer due to it if and only if that condition on the wildcards holds |
| LookupAnswers.WildcardMet | plugin/file/lookup.go:86-102 | a step of the walk without an owner looks for the wildcard right under the name of the step before |
| WildcardWitness.WildcardCoversNonTerminal | plugin/file/lookup.go:191-224 | with `*.org.` and `x.b.org.` stored, the empty non-terminal `b.org.` is answered with the wildcard's address |
| LookupAnswers.ApexAnswered | plugin/file/lookup.go:45-57 | SOA and apex NS queries are answered with exactly the apex records, whatever the tree holds |
| LookupAnswers.GlueExactly | plugin/file/lookup.go:400-434 | a record is glue exactly when it is an address, or with DNSSEC an address's signature, of a listed name server at or below the name it serves |
| LookupAnswers.ExtraExactly | plugin/file/lookup.go:438-469 | a record is additional exactly when it is an address, or with DNSSEC an address's signature, of a mail exchanger or service host in the zone |
| LookupTheorems.SigsExactly | plugin/file/lookup.go:387-397 | the signatures picked are exactly those that cover the type |
| ZoneLookup.LookupByWalk | plugin/file/lookup.go:59-267 | from the label walk on, the branches of Lookup give the specified answer |
| LookupTheorems.ChaseIsChain | plugin/file/lookup.go:299-362 | every chase, cyclic ones included, is a connected chain of at most maxChain+1 further owners, each the target of the first CNAME before it, and then what lies outside, nothing when it is cut off, or exactly the last owner's records of the type and their signatures |
| LookupTheorems.TerminalExactly | plugin/file/lookup.go:348-361 | an owner without CNAME ends a chain with exactly its records of the type asked for and the signatures that cover them, or with nothing when it has none |
| LookupTheorems.TargetIsFirst | plugin/file/lookup.go:333 | the alias followed is the data of the first CNAME record |
| LookupTheorems.PrevOfIsPrev | plugin/file/lookup.go:236-243 | the owner whose NSEC is used is determined by being the greatest at or before the name |
| LookupTheorems.DenialIsPredecessor | plugin/file/lookup.go:236-243 | a signed NameError carries the SOA and the NSEC of the query name's immediate predecessor in tree order |
| Consolidator.RunBalance | plugin/errors/errors.go:56-88 | one step of a thread moves increments between the committed, the count, the hands of a thread and the log, and loses none |
| Consolidator.StepConserved | plugin/errors/errors.go:56-88 | every step of every interleaving conserves increments |
| Consolidator.StepPending | plugin/errors/errors.go:56-88 | every step keeps a pending flusher for a positive count |
| Consolidator.StepInv | plugin/errors/errors.go:56-88 | the invariant is kept by inc, timer expiry, the timer callback and stop, at every atomic access |
| Consolidator.After | plugin/errors/errors.go:56-88 | the invariant holds after every run |
| Consolidator.RunConserves | plugin/errors/errors.go:56-88 | after every run: committed increments are those logged, those swapped out and about to be logged, and the count, up to 32-bit wrap-around; each batch, from the first error to the swap, has exactly one timer made for it; a positive count has an armed timer or a thread about to arm or to swap |
| Consolidator.QuietMeansLogged | plugin/errors/errors.go:56-88 | once all threads and timers are done the count is 0, and everything committed was logged exactly once if and only if the counter never wrapped; without a shutdown nothing was refused, so every error was logged |
| Consolidator.RefusedAfterShutdown | plugin/errors/errors.go:63-66 | after every run, a refused error means that stopFlag is set and a shutdown occurred in the run |
| Consolidator.StopBars | plugin/errors/errors.go:63-66 | once stopFlag is set no error is let in any more, for the rest of every run |
| Consolidator.StepSeen | plugin/errors/errors.go:63-88 | every step keeps, for each armed timer that was not replaced, somebody who stores it or, once stopFlag is set, somebody who is going to stop it |
| Consolidator.ShutdownFlushes | plugin/errors/errors.go:80-88 | after a finished shutdown a timer is left waiting only if a later setTimer had replaced it; the shutdown leaves everything at rest and every count empty if and only if no replaced timer is still armed |
| Consolidator.ShutdownMissesTimer | plugin/errors/errors.go:67-88 | such a timer can be left: a run in which a goroutine late to store its timer hides a newer one, and stop ends with an error counted |
| ConnPool.SearchFresh | plugin/forward/persistent.go:135-138 | the binary search finds the first fresh connection of a sorted bucket |
| ConnPool.CutIsFilter | plugin/forward/persistent.go:135-142 | cutting there is the same as filtering the whole bucket |
| ConnPool.DialDropsOnlyStale | plugin/forward/persistent.go:62-77 | a dial discards no fresh connection, hands out a fresh one if the bucket has any, and none otherwise |
| ConnPool.DialKeepsSorted | plugin/forward/persistent.go:62-77 | a dial keeps every bucket sorted by last use |
| ConnPool.YieldKeepsSorted | plugin/forward/persistent.go:82-97 | a yield keeps every bucket sorted by last use |
| ConnPool.CleanupKeepsSorted | plugin/forward/persistent.go:118-144 | a cleanup keeps every bucket sorted by last use |
| ConnPool.CleanStack | plugin/forward/persistent.go:120-142 | a bucket loses exactly its expired connections, or all of them |
| ConnPool.Transport.Dial | plugin/forward/persistent.go:62-80 | the manager's dial branch, on the map of stacks, is `OnDial` |
| ConnPool.Transport.Yield | plugin/forward/persistent.go:82-97 | the manager's yield branch is `OnYield` |
| ConnPool.Transport.Cleanup | plugin/forward/persistent.go:118-144 | cleanup is `OnCleanup` on every bucket, and closes what it removes |
| ConnProtocol.StepConserves | plugin/forward/persistent.go:57-108 | no step of manager, dialers or yielders duplicates or drops a connection |
| ConnProtocol.StepInv | plugin/forward/persistent.go:57-108 | every step keeps the rendezvous, the sorted buckets, the kinds of the connections and that each is in one place |
| ConnProtocol.RunSingle | plugin/forward/persistent.go:57-108 | after every run each connection ever opened is in exactly one place: pool, manager, dialer or closed |
| ConnProtocol.ReplyReachesItsDialer | plugin/forward/connect.go:47-58 | a reply goes to the dialer whose protocol was accepted last, with a connection of that bucket |
| ConnProtocol.AcceptedIsFresh | plugin/forward/persistent.go:62-80 | what the manager replies with has not expired, and it replies with none only if the bucket has nothing fresh |
| ConnProtocol.AsksForItsProto | plugin/forward/connect.go:46-51 | for the rest of every run a dialer asks for, waits for and uses the protocol it was called with, or TLS where that is configured |
| ConnProtocol.FreshStays | plugin/forward/persistent.go:57-108 | a connection that is still fresh stays cached through every event, unless a dial hands it out or the manager stops |
| ConnProtocol.CleanupExactly | plugin/forward/persistent.go:99-104 | the ticker leaves exactly the fresh connections, stopping leaves none |
| ConnProtocol.StopIsFinal | plugin/forward/persistent.go:102-105 | a stopped manager stays stopped with an empty pool for the rest of every run |
| ConnProtocol.YieldedIsCached | plugin/forward/persistent.go:82-97 | after every run, a connection given back goes on top of the bucket of its dialer's protocol, as used now, and no other bucket changes |
| WatchManager.StepLocked | plugin/pkg/watch/watcher.go:60-178 | the mutex is held by the one party that is inside a critical section |
| WatchManager.SaidStep | plugin/pkg/watch/watcher.go:60-178 | every step keeps the messages of an id in order and tied to whether it is registered |
| WatchManager.WatchedStep | plugin/pkg/watch/watcher.go:60-178 | every step keeps a registered id watched by the plugins that accepted it |
| WatchManager.StepInv | plugin/pkg/watch/watcher.go:60-178 | the invariant is kept by streams, notifications and Stop in any interleaving |
| WatchManager.MessagesInOrder | plugin/pkg/watch/watcher.go:60-178 | after every run the messages of an id are Created, then changes, then at most one Canceled, sent by its creator's stream or by Stop, and nothing follows a send that failed |
| WatchManager.IdsNeverReused | plugin/pkg/watch/watcher.go:49-57 | the id a stream takes was never given before, and keeps its creator and its name for the rest of every run |
| WatchManager.LiveIsWatched | plugin/pkg/watch/watcher.go:60-136 | once its creator has finished asking the plugins, the name of a registered id is watched by every plugin that did not refuse it |
| WatchManager.RegisteredExactly | plugin/pkg/watch/watcher.go:60-178 | between its creator's critical sections, an id is registered exactly when it was announced, nothing but changes followed, and every send succeeded |
| WatchManager.WatchesWanted | plugin/pkg/watch/watcher.go:93-161 | until Stop gets the mutex a plugin watches a name only while an id is registered for it or the plugins are just being told; except after a change that could not be sent, or an acceptance for an id already gone |
| WatchManager.FailedSendKeepsWatching | plugin/pkg/watch/watcher.go:152-158 | a run in which a failed send removes the only id of a name and the plugin goes on watching it |
| WatchManager.ChangeTellsMatching | plugin/pkg/watch/watcher.go:143-161 | from getting the mutex to the next select, exactly the ids registered then under a matching name get one change each, and are removed exactly when that send fails; process tells no other id, and none is removed, made or registered |
| WatchManager.ChangeWaits | plugin/pkg/watch/watcher.go:143-144 | until process gets the mutex it waits with the names the change matches |
| WatchManager.RequestWaits | plugin/pkg/watch/watcher.go:60-106 | a stream that received a create or cancel request stays at it, whatever others do, until it runs |
| WatchManager.CancelHonoured | plugin/pkg/watch/watcher.go:104-133 | a stream that cancels a registered id of its own has, when it leaves the mutex, sent Canceled for it and removed it, and touched no other id |
| WatchManager.CancelIgnored | plugin/pkg/watch/watcher.go:106-117 | canceling an id that is not registered or not the stream's own changes nothing |
| WatchManager.StopCancelsAll | plugin/pkg/watch/watcher.go:164-178 | every id that is live when Stop gets the mutex has, once Stop has returned, its cancellation as its last message, whatever happens meanwhile and afterwards |
| Scrub.Size | request/request.go:175-192 | the size is 65535 for TCP, the advertised size for UDP, and never below 512 |
| Scrub.LongestFit | request/request.go:260-325 | both binary searches, with their step back, keep the longest prefix that fits, or nothing when not even the empty one does |
| Scrub.ScrubReply | request/request.go:237-330 | the reply whole, or compressed, or with the longest fitting prefix of additional records, or with none and the longest fitting prefix of answers and TC |
| Scrub.CutExactly | request/request.go:237-330 | a reply that is cut keeps all answers, its TC bit and the longest fitting prefix of the additional records exactly when some prefix fits; otherwise the longest fitting prefix of the answers, no additional record but the request's OPT record, and TC |
| Scrub.SizeAndDoExactly | request/request.go:196-227 | nothing but the OPT record changes: the last one among the additional records is normalised, or the request's is put after them when there is none, and without one in the request they stay |
| Scrub.SizeAndDoLength | request/request.go:196-227 | the OPT record sent back adds at most its own size, and exactly that when the reply has none |
| Scrub.FitsExactly | request/request.go:237-330 | a reply that has to be cut fits the buffer if and only if header, question, authority and OPT on their own fit |
| Scrub.TcExactly | request/request.go:237-330 | without TC every answer is kept; a newly set TC means answers were lost or there were none, and nothing but the OPT record is left in the additional section |
| Scrub.TooLongIsBare | request/request.go:237-330 | a reply still too long holds no answer and no additional record but the OPT record |
| Singleflight.StepInv | plugin/pkg/singleflight/singleflight.go:41-64 | every step of every interleaving keeps the map, the call objects and the callers consistent |
| Singleflight.OneExecutionPerKey | plugin/pkg/singleflight/singleflight.go:41-64 | at most one execution per key is running |
| Singleflight.DeletesItsOwn | plugin/pkg/singleflight/singleflight.go:59-61 | the entry an owner deletes is its own, with the result in it |
| Singleflight.FinishesOnce | plugin/pkg/singleflight/singleflight.go:56-57 | fn's result is assigned by the owner, to a call object that has none |
| Singleflight.ResultsNeverChange | plugin/pkg/singleflight/singleflight.go:56-57 | a result once assigned stays for the rest of every run |
| Singleflight.ReturnsAnOverlappingExecution | plugin/pkg/singleflight/singleflight.go:41-64 | every caller returns the result of one execution for its key, run by a Do that overlapped its own, and the same as that Do returns |
| Singleflight.ResultIsFns | plugin/pkg/singleflight/singleflight.go:56 | a result in a call object is the value fn returned to its owner at some step of the run |
| Singleflight.ReturnsWhatFnReturned | plugin/pkg/singleflight/singleflight.go:41-64 | what a Do returns is what fn returned to a Do of the same key that overlapped it |
| Singleflight.NeverStuck | plugin/pkg/singleflight/singleflight.go:41-64 | a caller can always go on, or waits for a Do of the same key that can |
| ShardStore.AddKeepsBound | plugin/pkg/cache/cache.go:78-87 | evicting any key of a full shard before adding keeps every shard within its room |
| ShardStore.StoreBound | plugin/pkg/cache/cache.go:32-45 | shards within their room hold at most 256 times the room together |
| ShardStore.Shard.Add | plugin/pkg/cache/cache.go:78-87 | at most one element is evicted, only from a full shard, and the element is added or overwritten |
| ShardStore.Shard.Evict | plugin/pkg/cache/cache.go:97-116 | some one element goes, none from an empty shard |
| ShardStore.Cache.constructor | plugin/pkg/cache/cache.go:32-45 | 256 empty shards, each with room for a 256th of the capacity and at least 4 |
| ShardStore.Cache.Add | plugin/pkg/cache/cache.go:48-51 | the shards together behave as one map; what is evicted shares the key's shard |
| ShardStore.Cache.Get | plugin/pkg/cache/cache.go:54-57 | finds exactly what the one map holds |
| ShardStore.Cache.Remove | plugin/pkg/cache/cache.go:60-63 | removes exactly the key from the one map |
| ShardStore.Cache.Len | plugin/pkg/cache/cache.go:66-72 | the sum over the shards is the number of elements, and within the bound |
| CacheItem.Typify | plugin/pkg/response/typify.go:54-118 | the class of a message, by a condition for each class |
| CacheItem.ExpiredRRSIG | plugin/pkg/response/typify.go:133-144 | whether some signature is outside its validity period |
| CacheItem.ClassUnique | plugin/pkg/response/typify.go:54-118 | the conditions exclude one another |
| CacheItem.MinimalTTL | plugin/pkg/dnsutil/ttl.go:12-45 | the three loops compute `MinTtl` |
| CacheItem.MinTtlExactly | plugin/pkg/dnsutil/ttl.go:12-45 | which is the least TTL of all records that are not OPT records, at most an hour, and attained |
| CacheItem.ComputeTTL | plugin/cache/cache.go:97-106 | a TTL below the lower bound becomes that bound, one above the upper bound the upper, which also wins when the bounds cross |
| CacheItem.NewItem | plugin/cache/item.go:25-51 | the item keeps the sections, without OPT records, the TTL in whole seconds and the time |
| CacheItem.ToMsg | plugin/cache/item.go:55-83 | the reply carries the item's sections with what is left of the TTL, and never the authoritative bit |
| CacheItem.SharingIsInvisible | plugin/cache/cache.go:185-198 | overwriting the TTLs of records an item shares with the response does not show in any reply made from the item |
| CacheItem.KeyBytesInjective | plugin/cache/cache.go:82-95 | different names, types or DO flags are hashed from different bytes |
| ResponseCache.LifeClamped | plugin/cache/cache.go:162-168 | denials are kept within their own bounds and positive responses within theirs: the bound that is passed, otherwise the lowest TTL |
| ResponseCache.StepInv | plugin/cache/cache.go:152-218 | every cached response matched its key, is of a class that is kept, and each store holds the last response of its kind |
| ResponseCache.CachedExactly | plugin/cache/cache.go:66-77 | a response is cached if and only if it is a complete answer of class success, delegation, name error or no data, to the question asked in any case of letters, with time to live; under the lower-cased name, the type and its DO flag |
| ResponseCache.HitIsGood | plugin/cache/handler.go:65-79 | after every run with a clock that does not go back, a hit without hash collision is the last response of its kind cached for the same lower-cased name, type and DO flag, served strictly before its clamped TTL elapses, with the stored TTL less whole seconds elapsed, at least 1 |
| ResponseCache.HitReply | plugin/cache/item.go:55-88 | the reply to a hit answers the request's question with code, AD and RA bits and sections of the cached response, without OPT records, not authoritative, and every record carries the remaining TTL |
| ResponseCache.CachedIsServed | plugin/cache/cache.go:201-218 | a response just cached is what a later request finds until its TTL elapses, except, exactly, a positive one while the denial store holds an item for the hash that still has time left |
| ResponseCache.DenialHidesAnswer | plugin/cache/handler.go:65-79 | in a run that caches a denial and a second later an address for the same question, the next request still finds the denial |
| ResponseCache.StoresAreBounded | plugin/pkg/cache/cache.go:32-45 | after every run each store holds at most 256 * max(4, cap/256) items |
| ResponseCache.CapTtls | plugin/cache/cache.go:185-198 | the loops overwrite the TTL of every record but OPT records |
| ResponseCache.Plugin.constructor | plugin/cache/cache.go:45-61 | two empty stores of the configured capacity |
| ResponseCache.Plugin.Set | plugin/cache/cache.go:201-218 | the item goes to the store of its class and nowhere else |
| ResponseCache.Plugin.WriteMsg | plugin/cache/cache.go:152-199 | in memory, one `Write` step of the run, and the response goes on with its TTLs capped, unless it was prefetched |
| ResponseCache.Plugin.Get | plugin/cache/handler.go:65-79 | the denial store first, then the positive one, each only if time is left |
| ResponseCache.Plugin.ServeDNS | plugin/cache/handler.go:17-60 | on a hit the reply made from the item found; the stores do not change |

## Left out

- Names with escapes and the root name: `doDDD` leaves bytes behind when it shortens an escape, and the store is never asked about the root.
- The helpers of the DNS library that split and compare names are not part of this repository; they are functions on label sequences here.
- Elem.Name's lazily cached name, Elem.Types with a wildcard owner as a separate call, Tree.Delete and Elem.Delete (which drop a whole node when one type becomes empty), Tree.Do, Min and Max.
- The debug mode of the tree package and its 2-3-4 variant.
- The closest encloser used for the wildcard's denial, and the upstream resolver, are arbitrary functions passed in.
- ZoneLookup.LookupZone: demands of the closest encloser only that it is a name or empty.
- The order in which Go ranges over a map: listing a zone's types, and cleaning up the pool's buckets, hold for every order.
- ZoneStore.Zone.TransferOut: takes a zone with an SOA; without one the first record is nil, and the code fails when it takes its length.
- TransferIn after a failed primary, which goes on with the partly filled zone; retry, refresh and jitter of secondary zones; NOTIFY.
- The zone's reload mutex and queries during a reload or transfer.
- Sharing of record slices between a zone and the answers made from it; answers are values.
- Sockets, TLS, dial timeouts and the running average of dial times; a connection is an identity and a kind.
- A yielder that gives back a connection it does not hold.
- ConnPool.Transport.Dial: returns the connections to close, which another goroutine of the code closes.
- Which watched names a change matches is part of the event.
- Ids of the watch manager are unbounded, where the code counts in 64 bits; a stream's own goroutine and its network errors appear as failed sends.
- Message packing and compression: the length of a reply is any function that grows with each record, and an OPT record adds its own size.
- Scrub.FitsExactly: assumes, as the constant optLen does, that the OPT record sent back takes at most 12 bytes.
- Size and DO cached in the request, and the OPT record's other fields.
- fn panicking inside singleflight's Do.
- FNV-64 is any function of the hashed bytes; ResponseCache.HitIsGood asks that no response of the run was cached under the hash of another question.
- Shard additions that interleave with one another; cache operations are taken one at a time.
- ResponseCache.Plugin.WriteMsg: takes a question with every response that gets a key, without which the code fails when it computes the key.
- ResponseCache.Plugin.ServeDNS: leaves out the zone match, hit counting and the decision to prefetch; a prefetched response goes through WriteMsg like any other.
- Rounding of durations to floating point, durations of 2^32 seconds and more, and the 32-bit wrap-around in a signature's validity period.
- Metrics, logging, Corefile parsing and every other plugin.
