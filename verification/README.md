# fakegcp: a verified model of its store and protocols

fakegcp answers Google Cloud API requests from a small SQLite database and two in-memory caches. This
project models the part of it that has to behave like a database: rows with foreign keys, a merge for
patches, DNS changes that apply as a whole or not at all, numbered secret versions, IAM policies that are
replaced and read back, links that are printed and parsed, and one baseline that reset, snapshot and
restore move together with the caches.

How it is laid out:

- `Text`, `Json`, `Tables`, `Wrappers`: strings, JSON documents, keys, results.
- `References`, `LoadBalancer`, `Ids`: printers and parsers of links, admission of references, numeric ids.
- `Merge`: the merge behind every Update operation, as a loop over maps and as a pointwise definition.
- `Compute`, `Container`, `Sql`, `ServiceAccounts`, `Dns`, `Secrets`, `Pubsub`, `IamPolicy`: for each
  service its tables, one transition per operation, the invariant its rows keep and what follows from it.
- `Requests`: what a document says, read off the document; the vocabulary of the results about outcomes.
- `Outcomes`: when each compute operation succeeds, why it is refused and what it writes, from the request
  itself; each other service has the same at its end.
- `Rows`: the compute tables row by row: what one operation writes, leaves alone and undoes.
- `PolicyView`: the policy read back, sorted and grouped by role.
- `Service`, `Histories`: the whole state (tables, change cache, their baselines, and whether the connection
  cache has one), one step per request, and theorems over every run of requests.
- `Repository`, `Application`, `ServiceNetworking`: the objects that are updated in place. Their methods
  follow the statements of the original one after the other, and each is proved to make exactly the
  transition of its service. `Application.View` is the state `Service.Step` works on, and `Application.Valid`
  says that some run of requests leads to it; every handler keeps it, as long as the router hands over path
  parameters without slashes, so what is proved of runs holds of the objects.

A document is a map from fields to JSON values; the fields the code names are constants of the `Field`
type, any other field is `Other(text)`. An operation that can fail returns an `Outcome`: the new tables
and either the document to answer with or an error of the original's error classes.

Results worth knowing beside the guarantees, each stated with its exact condition in the table:

- A network reference in which an empty segment follows `networks` where the parser finds it (`networks/`,
  `networks//x`; not `networks/vpc/`) names no network and is admitted all the same, although the comments
  describe every non-empty reference as checked.
- A failing policy replacement is not atomic: what was granted before is gone, the bindings before the
  bad one are in force.
- The hidden column of an orphaned subscription leads to its old topic, although it keeps showing the
  tombstone and the comment on topic deletion promises that neither lookup path leads back, exactly when
  the subscription was patched after the last deletion of that topic. While it does, creating and deleting
  a topic of that name is not without trace, nor is the refused deletion of a missing one.
- The connection cache's snapshot shares its connections with the live cache, so a PATCH alters both while a
  connection is shared: after the snapshot until it is created anew or deleted, and again after a restore.
  A restore brings back what those patches wrote.
- Version numbers follow on only while no other secret's version lies in a later row.
- `README.md` of the original says that a restore after a reset returns to an empty state. The state is
  empty, but because the reset emptied it: the restore itself is refused for want of a snapshot.

## Model

| member | source | states |
|---|---|---|
| References.SelfLink | handlers/handlers.go:226-238 | the loop prints the link of exactly the non-empty trimmed segments, in order |
| References.FirstAfterIsFirst | repository/repository.go:929-956 | the segment walk answers with a name if and only if that name follows the first occurrence of the keyword that has a successor |
| References.ResolvesIff | repository/repository.go:914-957 | what each reference resolves to, for all references: itself when bare, else what follows the first segment naming the collection, behind the project when there is one, unless that is another one |
| References.ComputeRefNameIff | handlers/loadbalancer.go:144-172 | the strict parser accepts exactly bare names and the one path of five segments |
| References.AbsoluteSpellings | repository/repository.go:921-929 | scheme, host and API prefix of an absolute link go, and the path remains |
| References.RelativeSpellings | repository/repository.go:921-929 | so do a leading slash and the API prefix of a relative one |
| References.LenientSpellings | repository/repository.go:926-929 | the lenient parser also takes off a bare version prefix |
| References.TrimmedOfSlashes | handlers/handlers.go:226-238 | trimming takes slashes off both ends of a path part, all of them and nothing else |
| References.SegmentsOfParts | handlers/handlers.go:226-238 | every part of a path contributes to a link on its own |
| References.ResolvedNamesAreBare | repository/repository.go:914-957 | a resolved name holds no slash, and resolving it again gives itself |
| References.StrictRefinesLenient | handlers/loadbalancer.go:144-172 | whenever computeRefName accepts, resolveSameProjectName accepts with the same name, except exactly when the collection is itself called "global" and the name is not |
| References.PathOfLink | handlers/loadbalancer.go:155-162 | under either parser a printed compute link of any host normalises to the very segments it was printed from |
| References.GlobalLinkRoundTrip | handlers/loadbalancer.go:174-176 | computeRefName of a printed global link is the name; the lenient parser agrees under an exact condition on the collection |
| References.ForeignRefsAreRejected | repository/repository.go:920-933 | both parsers reject every reference whose normalised path leads into another project, absolute or relative, under any scheme, host and API prefix |
| References.ResolvesToANameIff | repository/repository.go:929-956 | a reference that resolves does so to a non-empty name exactly when it names something: it is not empty, and no empty segment follows the keyword where the parser finds it |
| References.SubnetworkLinkRoundTrip | repository/repository.go:1038-1046 | a printed subnetwork link gives back its name, and its region, exactly when no earlier segment is taken for the keyword |
| References.NetworkSpellingsAgree | repository/repository.go:914-957 | bare name, relative path, project path and absolute link of a network resolve to the same name |
| References.RegionOfZone | repository/repository.go:866-889 | a zone's region is the part before its last hyphen exactly when only lower-case letters follow it |
| References.ExtractRegionIff | repository/repository.go:1038-1046 | a reference carries a region exactly when that follows its first segment "regions" |
| References.ShortNameReadBack | repository/repository.go:364-372 | the last-segment parser reads a short name back from under any path |
| References.BareNameReadBack | repository/repository.go:364-372 | a bare name is its own last segment |
| References.NameOfAppendedText | repository/repository.go:364-372 | for any text appended to a collection path, what name is read out of it, trailing white space and blank text included |
| LoadBalancer.ValidateListFK | handlers/loadbalancer.go:109-131 | the list under the field passes if and only if every reference in it is admitted; otherwise the error is that of the first one refused; no list passes |
| LoadBalancer.ValidateScalarFK | handlers/loadbalancer.go:28-44 | a single reference passes if and only if it is admitted; malformed and dangling ones are told apart |
| LoadBalancer.ShownLinksAreAdmittedIff | handlers/loadbalancer.go:144-176 | the link a resource shows is admitted exactly from its own project and while the resource exists |
| Ids.ValueBounds | handlers/compute.go:165-177 | a digit string denotes a number between its leading digit's power of ten and the next |
| Ids.NumericId | handlers/compute.go:170-177 | the filled buffer has the given length, digits only and a leading digit in range |
| Ids.NumericIdsFit | repository/repository.go:300-308 | the 18 digits of the handlers and the 19 of the repository are positive and below 2^63 |
| Merge.CopyOf | repository/repository.go:315-331 | the copying loop copies, in whatever order it visits the keys |
| Merge.OverlayOf | repository/repository.go:342-354 | the inner loop overlays the non-null fields of the patch object |
| Merge.PatchMerge | repository/repository.go:314-362 | the two loops over maps in arbitrary order compute the pointwise two-level merge |
| Merge.MergedStep | repository/repository.go:333-360 | one more patch key changes the merge at that key only, and not at all when it is skipped or null |
| Merge.MergeIsPointwise | repository/repository.go:314-362 | field by field: a skipped, null or missing one keeps the stored value; two objects become one whose fields are those of both, the patch's in front unless null; anything else takes the patch's value |
| Merge.StampedMergeApplies | repository/repository.go:510-512 | stamping skipped columns afterwards takes nothing of that back |
| Merge.MergeKeepsTheRest | repository/repository.go:314-362 | no key is ever removed; skipped, null and unmentioned keys keep the stored value; skipped keys never appear |
| Merge.MergeIsIdempotent | repository/repository.go:314-362 | merging the same patch twice equals merging it once |
| Merge.StampedMergeIsIdempotent | repository/repository.go:510-512 | so does merging and stamping the fixed columns over it |
| Merge.MergeAbsorbsSkipped | repository/repository.go:581-612 | a skipped column rewritten after the merge survives the same patch again |
| Compute.NewBoundIsCoherent | repository/repository.go:529-566 | a new bound row has a non-empty foreign-key column equal to its stored network_name |
| Compute.StepKeepsValid | repository/repository.go:48-201 | every operation on networks, subnetworks, firewalls, routers, NATs and instances keeps parents existing, names non-empty and the two network records equal, blocked and cascading deletes included |
| Compute.PatchedBoundIsIdempotent | repository/repository.go:576-626 | patching a bound row again with the same patch gives the same row, the re-derived network included |
| Compute.UpdatesAreIdempotent | repository/repository.go:678-720 | a successful update of a network, subnetwork, firewall, router or NAT, repeated, succeeds with the same answer and changes nothing |
| Compute.NewBoundAgreesIff | repository/repository.go:534-549 | a new row's visible network resolves to its foreign-key column exactly when the client left network_name out or supplied the resolved name |
| Compute.PatchedBoundAgreesIff | repository/repository.go:590-612 | a patched row's records agree exactly when the patch mentions the network or they agreed before |
| Compute.AdmittedNetworkExistsIff | repository/repository.go:896-908 | an admitted network reference stands for an existing network exactly when it names one at all |
| Compute.ValidRefsAreAttached | repository/repository.go:809-855 | admission, which reads stored documents, is equivalent to existence and parentage read off the foreign-key columns, for every reference that names something |
| Compute.CreatedInstanceIsAttached | repository/repository.go:764-855 | a named instance is created if and only if its key is free and every NIC's references that name something are attached; the stored document's NICs are |
| Compute.EmptySegmentIsAdmittedIff | repository/repository.go:896-908 | without any network, a reference below "networks/", without a scheme in it, is admitted exactly when the segment behind it is empty |
| Outcomes.NetworkCreation | repository/repository.go:471-495 | a network is created if and only if it is named and its name is free; its document is the request's with key, and id and time unless given |
| Outcomes.NetworkUpdate | repository/repository.go:505-523 | an update succeeds if and only if the network is there, and the patch takes effect on every field but the key |
| Outcomes.SubnetworkCreation | repository/repository.go:529-566 | a subnetwork is created if and only if it is named, its place is free, and the network chosen by a non-empty `network_name`, or else by resolving `network`, is non-empty and there; it is bound to that network, and its document is the request's with the columns; each refusal has its error |
| Outcomes.FirewallCreation | repository/repository.go:632-668 | the same of firewalls |
| Outcomes.RouterCreation | repository/repository.go:2096-2131 | the same of routers |
| Outcomes.SubnetworkUpdate | repository/repository.go:576-626 | an update of a stored row succeeds if and only if the patch leaves `network` alone or the merged reference resolves to a network that is there; the row is bound to that one, or as before, and the patch takes effect on every other field |
| Outcomes.FirewallUpdate | repository/repository.go:678-720 | the same of firewalls |
| Outcomes.RouterUpdate | repository/repository.go:2141-2183 | the same of routers |
| Outcomes.NatCreation | repository/repository.go:2189-2213 | a NAT needs a name, a free place and its router |
| Outcomes.NatUpdate | repository/repository.go:2223-2242 | as for networks |
| Outcomes.Deletions | repository/repository.go:427-443 | a deletion succeeds if and only if there is something to delete |
| Outcomes.SubnetworkRegionIs | repository/repository.go:835-843 | a subnetwork is looked up in the region its reference carries, else in the one around the place |
| Outcomes.FitsIff | repository/repository.go:809-855 | admission means: the network resolves and is there if named, and the subnetwork, if referred to, resolves, is there in that region and hangs on that network |
| Outcomes.InstanceCreation | repository/repository.go:764-855 | an instance is created if and only if it is named, every object in its list of interfaces fits and its place is free; the refusals in that order |
| Rows.OnlyTheNamedRowChanges | repository/repository.go:427-443 | each of the seventeen operations writes the row it names and leaves every other row of every table as it was, a deleted router's NATs excepted |
| Rows.AnswerIsTheStoredRow | repository/repository.go:471-626 | after a success the named row holds exactly the answer, or is gone after a deletion; creation demands a free place, update and deletion an occupied one |
| Rows.AnswerShowsItsKey | repository/repository.go:476-494 | whatever the request's document claims, the stored one shows the row's own name, project and location |
| Rows.StepKeepsKeysShown | repository/repository.go:505-523 | every stored compute document keeps showing its key |
| Rows.StepAgreementIff | repository/repository.go:529-720 | whatever any client supplies, an operation changes only whether the row it names agrees: that one does after it exactly when the request settled its binding, or it agreed before and is not deleted |
| Rows.NetworkDeletionIff | repository/repository.go:525-527 | NO ACTION as a client sees it: a network is deleted if and only if it exists and no document shows its name; a refusal as in use means exactly that one does |
| Rows.RouterDeletionTakesItsNats | repository/repository.go:2185-2187 | CASCADE: with a router go exactly its own NATs, and every other row stays |
| Container.StepKeepsValid | repository/repository.go:1197-1225 | node pools never outlive their cluster |
| Container.StoredClusterIsAttached | repository/repository.go:1133-1195 | a created or updated cluster is stored with a subnetwork, if it refers to one, that exists in the derived region and belongs to the cluster's network, and a network that exists if its reference names one, judged on the merged document |
| Container.NetworkOnlyPatchNeedsTheSubnetwork | repository/repository.go:995-1032 | a patch of the network alone succeeds exactly when the stored subnetwork belongs to the new network |
| Container.UpdatesAreIdempotent | repository/repository.go:1169-1195 | a successful cluster update, repeated, is admitted again and changes nothing |
| Container.PoolsLeaveOnlyWhenTold | repository/repository.go:1197-1237 | a pool is lost only with its own deletion or its cluster's, and never altered |
| Container.ClusterCreation | repository/repository.go:1133-1159 | a cluster is created if and only if it is named, its references fit and its place is free |
| Container.ClusterUpdate | repository/repository.go:1169-1195 | an update succeeds if and only if the cluster is there and the merged references fit; the patch takes effect on every field but the key |
| Container.NodePoolCreation | repository/repository.go:1201-1225 | a pool needs a name, a free place and its cluster |
| Container.Deletions | repository/repository.go:1197-1237 | deletions succeed exactly when there is something to delete, and with a cluster go exactly its pools |
| Sql.StepKeepsValid | repository/repository.go:1253-1402 | databases and users never outlive their instance |
| Sql.InstanceCreation | repository/repository.go:1253-1278 | an instance is created if and only if it is named, its private network, if asked for, is there, and its name is free |
| Sql.InstanceUpdate | repository/repository.go:1288-1311 | an update succeeds if and only if the instance is there and the merged private network is |
| Sql.DatabaseCreation | repository/repository.go:1317-1337 | a database needs a name, a free place and its instance |
| Sql.UserCreation | repository/repository.go:1351-1374 | so does a user, named by `name` or else by `user` |
| Sql.UserUpdate | repository/repository.go:1380-1398 | the patch takes effect on every field but the key |
| Sql.Deletions | repository/repository.go:1313-1402 | deletions succeed exactly when there is something to delete; an instance's databases and users go with it and no others |
| ServiceAccounts.StepKeepsValid | repository/repository.go:1404-1499 | keys never outlive their account |
| ServiceAccounts.AccountCreation | repository/repository.go:1404-1432 | an account is created if and only if it is named, its address is new, and its id is new in the project |
| ServiceAccounts.AccountUpdate | repository/repository.go:1446-1465 | the patch takes effect on every field but name, address, project and id |
| ServiceAccounts.KeyCreation | repository/repository.go:1467-1487 | a key needs a new name and an account of the address |
| ServiceAccounts.Deletions | repository/repository.go:1442-1499 | with an account go exactly its own keys |
| Dns.StampedRowRepeatsKey | repository/repository.go:2319-2341 | a stored record set repeats its own key |
| Dns.RestoredRowIsTheSame | handlers/dns.go:336-340 | storing such a row again under its zone stores the very same row |
| Dns.StepKeepsValid | repository/repository.go:2248-2353 | zones exist for all record sets, and each record set repeats its key, after every operation, a zone without a DNS name being refused |
| Dns.OnlyItsDeletionRemovesARecordSet | repository/repository.go:142-147 | no single operation but its own deletion loses or alters a record set; the declared cascade never fires |
| Dns.ZoneCreation | handlers/dns.go:11-48 | a zone is created if and only if it is named, has a DNS name and its name is free |
| Dns.ZoneUpdate | repository/repository.go:2283-2300 | the patch takes effect on every field but the key |
| Dns.ZoneDeletion | repository/repository.go:2302-2317 | a zone is deleted if and only if it is there and holds no record set; nothing goes with it |
| Dns.RecordSetCreation | handlers/dns.go:108-144 | a record set is created if and only if its zone is there, it is named and typed, and the two are free in the zone |
| Dns.RecordSetDeletion | handlers/dns.go:400-414 | it is deleted if and only if zone and record set are there |
| Dns.AddedRowsContents | handlers/dns.go:353-363 | with distinct keys every addition is stored as a row of its own |
| Dns.ChangeIsExact | handlers/dns.go:261-379 | a change succeeds if and only if the zone exists, every entry is complete, the deletions are distinct and there, and the additions are distinct and free once those are gone; on success the table is exactly the old one minus deletions plus stamped additions, on failure it is the old one (`Dns.ChangeReadsTheRequest` says so of the request itself) |
| Dns.EntriesAreTheObjects | handlers/dns.go:289-323 | what is processed of a list are its objects, all of them, in order |
| Dns.ChangeReadsTheRequest | handlers/dns.go:261-379 | from the lists under `deletions` and `additions` themselves, missing ones counting as empty: when a change succeeds, each way it is refused, which record sets are gone, and that each addition is stored under its key with every field of its entry but kind, time and key |
| Dns.ListsAreDeletedAndAdded | handlers/dns.go:279-280 | of two lists of objects the one under `deletions` is deleted and the one under `additions` is added |
| Dns.ChangeAnswerRepeatsTheRequest | handlers/dns.go:365-377 | the answer holds the deletions as they came and the additions as they are stored |
| Dns.ChangeKeepsValid | handlers/dns.go:343-363 | a change keeps the invariant that rolling back relies on |
| Secrets.VersionNameParts | repository/repository.go:2746-2750 | a version name splits back into its parts, and its last part into the number |
| Secrets.SameNameSameSecret | repository/repository.go:2740-2763 | equal version names mean equal project, secret and number |
| Secrets.VersionNumbersNeverCollide | repository/repository.go:2740-2763 | the next number is above every live number of the secret, although row numbers are shared by all secrets, so adding to an existing secret always succeeds and the new version is the latest |
| Secrets.NumbersAreConsecutiveIff | repository/repository.go:2742-2758 | after an addition the next number follows on exactly when, before it, no other secret had a version in a later row than the secret's own last |
| Secrets.TakingTurnsSkipsANumber | repository/repository.go:2742-2746 | two secrets taking turns skip number 2 |
| Secrets.LatestHasTheGreatestNumber | repository/repository.go:2773-2776 | ordering by row number yields the greatest version number |
| Secrets.MaximaAreUnique | repository/repository.go:2742-2745 | the maximum of a secret's, or of all, row numbers is determined |
| Secrets.InsertVersionKeepsValid | repository/repository.go:2740-2763 | adding keeps: number at most row number, row numbers distinct, row order is number order, state fits payload |
| Secrets.SetStateKeepsValid | repository/repository.go:2788-2805 | so does enabling or disabling |
| Secrets.DestroyKeepsValid | repository/repository.go:2811-2827 | so does destroying |
| Secrets.StepKeepsValid | repository/repository.go:2683-2827 | and every other routed operation, the cascading deletion of any secret included |
| Secrets.VersionsOnlyEvolve | repository/repository.go:2779-2827 | no operation but the deletion of its secret ends a version; destroyed is for good, any other state keeps the payload |
| Secrets.AccessShowsThePayload | handlers/secretmanager.go:171-200 | access serves the stored payload until the version is destroyed, then empty data |
| Secrets.NamesSpeltOut | repository/repository.go:2748 | the text of secret and version names |
| Secrets.SecretCreation | repository/repository.go:2683-2708 | a secret is created if and only if it is named and its name is free |
| Secrets.SecretUpdate | repository/repository.go:2722-2738 | the patch takes effect on every field but name and project |
| Secrets.SecretDeletion | repository/repository.go:2718-2720 | with a secret go exactly its own versions |
| Secrets.AddingAVersion | handlers/secretmanager.go:93-120 | a version is added if and only if the body carries a payload with a data string and the secret is there; it starts "ENABLED" at the server's time and keeps the rest of the body |
| Secrets.EnablingAndDisabling | handlers/secretmanager.go:225-245 | a version that is not destroyed is left "ENABLED" by enabling and "DISABLED" by disabling, every other field and version as it was; a destroyed one is refused, a missing one not found |
| Secrets.Destroying | handlers/secretmanager.go:208-220 | destroying leaves "DESTROYED" and the time, drops the payload, and touches nothing else |
| Pubsub.StepKeepsValid | repository/repository.go:2829-2973 | each subscription shows the tombstone or is bound, in all three records, to one existing topic, after every operation |
| Pubsub.TopicCreation | handlers/pubsub.go:10-27 | a topic is created if and only if its name is not empty and free |
| Pubsub.SubscriptionCreation | handlers/pubsub.go:66-83 | a subscription is created if and only if it is named, refers to a topic that is there, and its name is free; it is bound to that topic |
| Pubsub.SubscriptionUpdate | repository/repository.go:2933-2969 | the patch takes effect on every field but name, project and topic |
| Pubsub.Deletions | repository/repository.go:2857-2973 | a topic or subscription is deleted if and only if it is there |
| Pubsub.DeletionOrphansItsSubscriptions | repository/repository.go:2857-2886 | deleting a topic orphans exactly the subscriptions that show it and leaves the others as they are |
| Pubsub.OrphansStayOrphans | repository/repository.go:2933-2969 | an orphan stays one under every operation but its own deletion; others keep showing their topic |
| Pubsub.StepWritesTheColumn | repository/repository.go:2857-2969 | the hidden column is written by patches of the subscription and deletions of its topic, each in its own way, and by nothing else; the topic name in the document stays |
| Pubsub.PatchRepointsTheHiddenColumnIff | repository/repository.go:2857-2969 | over any requests that leave a bound subscription in place it is an orphan exactly when its topic was deleted, and its hidden column is the tombstone exactly when, of the patches of it and the deletions of the topic, a deletion came last; else it leads to the topic |
| Pubsub.StepKeepsColumnsFollowing | repository/repository.go:2857-2969 | which orphans lead back to their topic can be kept from the requests alone |
| Pubsub.ColumnsLeadingBack | repository/repository.go:2857-2886 | the hidden columns that lead to a missing topic are those of the orphans created on it and patched since its deletion |
| Pubsub.FailedTopicDeletionChangesNothingIff | repository/repository.go:2857-2886 | deleting a missing topic alters no visible document, and nothing at all exactly when no hidden column leads to the name |
| Pubsub.RefusedDeletionLeavesATrace | repository/repository.go:2857-2886 | a run from the empty tables whose last request is refused and yet alters a row |
| Pubsub.TopicDeletionUndoesCreationIff | repository/repository.go:2829-2886 | creating and deleting a topic restores everything visible, and the hidden columns exactly when no patched orphan leads back to the topic's name |
| IamPolicy.SetRolesIsExact | handlers/iam_bindings.go:64-84 | from a cleared project the bindings succeed if and only if none repeats a member, and then hold exactly what the last binding of each role grants |
| IamPolicy.SetPolicyIsExact | handlers/iam_bindings.go:29-86 | the whole call succeeds if and only if no binding repeats a non-blank member; the project then holds exactly the granted members, and no other project changes |
| IamPolicy.MembersAreTheStrings | handlers/iam_bindings.go:72-79 | of a members list every non-empty string is read, as often as it is there |
| IamPolicy.GrantsReadTheRequest | handlers/iam_bindings.go:64-84 | a role grants a member exactly when the last object of the bindings list with that role lists it |
| IamPolicy.SetPolicyReadsTheRequest | handlers/iam_bindings.go:9-86 | from `policy.bindings` itself: the call succeeds if and only if there is a policy and no object that names a role lists a non-blank string twice; the project then holds exactly what the last object of each role lists, blank strings apart |
| IamPolicy.StoredRowsSayTheirs | repository/repository.go:2022-2030 | a stored row says its role and its member |
| IamPolicy.SetPolicyKeepsValid | repository/repository.go:2009-2035 | stored rows have a role, a non-blank member and data that repeats both |
| IamPolicy.FailedPolicyIsItsGoodPrefix | handlers/iam_bindings.go:64-84 | a failing call leaves exactly the policy of the bindings before the first bad one |
| IamPolicy.FailedPolicyChangesNothingIff | handlers/iam_bindings.go:29-86 | every failing call has a first bad binding, and leaves the store unchanged exactly when the bindings before it already describe the project |
| IamPolicy.FailedPolicyCanLoseGrants | handlers/iam_bindings.go:29-86 | a request body, naming one member twice, whose call fails and loses a grant |
| PolicyView.InsertSorted | repository/repository.go:2041-2043 | inserting keeps (role, member) order and adds one element |
| PolicyView.ListBindings | repository/repository.go:2041-2043 | the list is sorted and holds exactly the project's rows |
| PolicyView.GroupByRole | repository/repository.go:2064-2094 | every role appears once, no group is empty, and the groups in order flatten to the list, rows without a role or member left out |
| PolicyView.GroupingIsUnique | repository/repository.go:2064-2094 | a list has at most one such grouping |
| PolicyView.FlattenMembers | repository/repository.go:2064-2094 | a pair is in the flattened groups exactly when its role's group holds its member |
| PolicyView.PolicyReadsBack | handlers/iam_bindings.go:95-105 | the policy read back after a successful replacement shows exactly what the request granted |
| Service.TablesKeepIntegrity | repository/repository.go:48-201 | a request keeps the integrity of all services' tables together |
| Service.StepKeepsSound | handlers/admin.go:9-43 | so do changes, reset, snapshot and restore, and the three baselines come and go together |
| Service.ReachableStatesAreSound | repository/repository.go:48-201 | in every reachable state, and in its baseline, every child has its parent and every redundant record agrees |
| Service.RejectedRequestsChangeNothing | repository/repository.go:427-443 | a rejected request leaves the whole state alone, the two that can stop half way excepted |
| Service.RejectedTopicDeletionChangesNothingIff | repository/repository.go:2857-2886 | one of the two, deleting a missing topic, leaves the whole state alone under an exact condition on the hidden columns |
| Service.StepStaysReachable | handlers/admin.go:9-43 | a routed request leads from a reachable state to a reachable one |
| Service.UpdatesAreIdempotent | repository/repository.go:314-362 | a successful update of any kind (network, subnetwork, firewall, router, NAT, cluster, SQL instance and user, service account, zone, secret, subscription), repeated, succeeds with the same answer and changes nothing |
| Service.DeletionUndoesCreation | repository/repository.go:48-201 | deleting what was just created, of any kind but topics and versions, succeeds and restores the whole state, cascades and blocked deletions notwithstanding |
| Service.BaselinesAreTheLatestSnapshot | handlers/handlers.go:86-94 | over every run the baselines are those of the latest snapshot since the latest reset, the connection cache's among them |
| Service.BaselinesAreEmptyWithoutSnapshot | repository/repository.go:1629-1634 | with every snapshot followed by a reset there is no baseline of any kind |
| Service.RestoreReturnsToTheSnapshot | handlers/admin.go:35-43 | restore brings back tables and change cache of that snapshot |
| Service.RestoreWorksAgain | repository/repository.go:1663-1714 | any number of times, whatever requests come between |
| Service.RestoreNeedsASnapshot | repository/repository.go:1668-1674 | without one it fails and changes nothing |
| Service.SnapshotLeftOrNot | handlers/admin.go:9-43 | every run is in one of the two cases |
| Histories.NetworkRecordsAgree | repository/repository.go:529-720 | in every reachable state, and in its baseline, foreign-key column, network_name and resolved reference agree in exactly the rows whose binding the requests settled by the visible reference, whatever other clients supply |
| Histories.AgreementLastsOverRuns | repository/repository.go:529-720 | a row whose records agree keeps them in agreement over every run of any requests, until its own deletion or a rewind |
| Histories.RowsShowTheirKeysOverRuns | repository/repository.go:471-795 | in every reachable state, and in its baseline, the document of each compute row shows the row's own key |
| Histories.VersionsOnlyEvolveOverRuns | repository/repository.go:2779-2827 | from any reachable state on a version is destroyed for good or keeps its payload, over any run without rewinding |
| Histories.AddedPayloadIsServed | handlers/secretmanager.go:93-200 | from its creation on, access serves the payload of the addVersion request until the version is destroyed |
| Histories.OrphansStayOrphansOverRuns | repository/repository.go:2857-2969 | a tombstone survives every run, topic re-creation included, short of its own deletion or a rewind |
| Histories.HiddenColumnsFollowTheRequests | repository/repository.go:2857-2969 | in every reachable state, and in its baseline, a hidden column is the tombstone exactly when the subscription shows it and was not patched since its topic's deletion, else the topic's name |
| Histories.RefusedDeletionChangesNothingIff | repository/repository.go:2857-2886 | after any run, the refused deletion of a missing topic leaves the whole state alone exactly when no orphan created on it was patched since its deletion |
| Histories.SubscriptionsShowLiveTopics | repository/repository.go:2888-2923 | every reachable subscription shows the tombstone or an existing topic of its project |
| Histories.RecordSetsLeaveOnlyWhenTold | repository/repository.go:2302-2317 | a record set is lost or altered only by its own deletion, a change that names it, reset or restore |
| Histories.ChangesAreAtomic | handlers/dns.go:343-379 | a failing change leaves tables and change cache as they were; a successful one records itself and nothing else |
| Histories.KeyTextIsInjective | handlers/handlers.go:38-40 | change keys of slash-free triples collide only for equal triples |
| Histories.RecordingRefines | handlers/handlers.go:54-62 | recording under the key text is recording under the triple |
| Histories.CacheIsKeyedByTuples | handlers/handlers.go:54-107 | over every run the string-keyed cache and its baseline are those keyed by triples |
| Histories.LookupIsByTriple | handlers/handlers.go:64-68 | over every run a lookup returns a change exactly for the triple it was recorded under |
| Histories.RecordedChangeIsServed | handlers/dns.go:261-398 | what a successful change answered is what a poll in its zone under its id finds, until a rewind or a change of the same id there |
| Repository.ClearingOrderIsComplete | repository/repository.go:1569-1603 | the list of tables to clear leaves out no table of the model |
| Repository.AllClearedIsEmpty | repository/repository.go:1621-1625 | with every table cleared the database is the empty one |
| Repository.Repository.Reset | repository/repository.go:1568-1635 | clearing the tables one by one empties the database, and the snapshot is gone |
| Repository.Repository.Snapshot | repository/repository.go:1637-1661 | the snapshot is the current database, and replaces an older one |
| Repository.Repository.Restore | repository/repository.go:1663-1714 | the handle moves to the snapshot, or stays when there is none |
| Repository.Repository.ResolveExistingNetwork | repository/repository.go:896-908 | the lookup is the specified resolution |
| Repository.Repository.BindNew | repository/repository.go:529-555 | the statements shared by the three creations, resolution of the reference included, build the row or fail with the error of which `Outcomes.SubnetworkCreation` says when |
| Repository.Repository.BindPatched | repository/repository.go:585-617 | those shared by the three updates, each branch on the network in its order, build the row or fail as `Outcomes.SubnetworkUpdate` says |
| Repository.Repository.CreateSubnetwork | repository/repository.go:529-566 | makes the table step of its request in `Service.Step` |
| Repository.Repository.UpdateSubnetwork | repository/repository.go:576-626 | makes the table step of its request in `Service.Step` |
| Repository.Repository.CreateFirewall | repository/repository.go:632-668 | makes the table step of its request in `Service.Step` |
| Repository.Repository.UpdateFirewall | repository/repository.go:678-720 | makes the table step of its request in `Service.Step` |
| Repository.Repository.CreateRouter | repository/repository.go:2096-2131 | makes the table step of its request in `Service.Step` |
| Repository.Repository.UpdateRouter | repository/repository.go:2141-2183 | makes the table step of its request in `Service.Step` |
| Repository.Repository.ValidateRefs | repository/repository.go:995-1032 | the chain of early returns decides admission |
| Repository.Repository.ValidateInstanceNics | repository/repository.go:809-855 | the loop accepts if and only if every NIC is admitted |
| Repository.Repository.CreateInstance | repository/repository.go:764-795 | makes the table step of its request in `Service.Step` |
| Repository.Repository.CreateCluster | repository/repository.go:1133-1159 | makes the table step of its request in `Service.Step` |
| Repository.Repository.UpdateCluster | repository/repository.go:1169-1195 | makes the table step of its request in `Service.Step` |
| Repository.Repository.CreateDNSRecordSet | repository/repository.go:2319-2341 | refines the transition; no other table changes |
| Repository.Repository.DeleteDNSRecordSet | repository/repository.go:2351-2353 | refines the transition; no other table changes |
| Repository.Repository.DeleteDNSZone | repository/repository.go:2302-2317 | makes the table step of its request, and so never alters a record set, although the delete cascades |
| Repository.Repository.MaxRowOfSecret | repository/repository.go:2742-2745 | the scan finds the largest row number of one secret, 0 for none |
| Repository.Repository.NextRow | repository/repository.go:2758 | a new row number is one above the largest of the whole table |
| Repository.Repository.CreateSecretVersion | repository/repository.go:2740-2763 | refines the insertion; no other table changes |
| Repository.Repository.GetLatestSecretVersion | repository/repository.go:2773-2776 | finds the version with the largest row number, or that the secret has none |
| Repository.Repository.SetSecretVersionState | repository/repository.go:2788-2805 | refines the transition, a destroyed version being refused |
| Repository.Repository.DestroySecretVersion | repository/repository.go:2811-2827 | refines the transition |
| Repository.Repository.OrphanSubscriptions | repository/repository.go:2858-2881 | the loop that rewrites rows one by one, each under the name in its document, orphans exactly the rows found by the hidden column |
| Repository.Repository.DeleteTopic | repository/repository.go:2857-2886 | makes the table step of its request, the orphaning of a refused one included |
| Repository.Repository.CreateSubscription | repository/repository.go:2888-2923 | refines the transition; no other table changes |
| Repository.Repository.UpdateSubscription | repository/repository.go:2933-2969 | makes the table step of its request in `Service.Step` |
| Repository.Repository.PatchSubscription | repository/repository.go:2938-2960 | putting back name, topic and hidden column after the merge gives the specified row, or the specified error |
| Repository.Repository.SetIAMBinding | repository/repository.go:2009-2035 | the transaction replaces one role, or leaves the table alone when a member repeats |
| Repository.Repository.GetIAMPolicy | repository/repository.go:2064-2094 | the groups flatten to the project's rows in order |
| Application.Application.constructor | handlers/handlers.go:42-48 | a new application is in the initial state, which is reachable |
| Application.Application.TablesAreSound | repository/repository.go:48-201 | in every state a run leads to, the tables of all services are sound and the baselines of tables, change cache and connection cache are there together or not at all |
| Application.Application.ResetState | handlers/admin.go:9-23 | refines the reset step; the connection cache and all three baselines are emptied with it |
| Application.Application.SnapshotState | handlers/admin.go:25-33 | refines the snapshot step; the connection cache takes its baseline at the same time |
| Application.Application.RestoreState | handlers/admin.go:35-43 | refines the restore step; the connections go back exactly when the tables do |
| Application.Application.RecordDNSChange | handlers/handlers.go:54-62 | a change without an id is not recorded |
| Application.Application.PendingDeletions | handlers/dns.go:288-302 | collects the keys of the deletions with the row each would remove, and refuses exactly when an entry is incomplete |
| Application.Application.PendingAdditions | handlers/dns.go:306-323 | collects the additions as the server stamps them, and refuses exactly when an entry is incomplete |
| Application.Application.UndoAdditions | handlers/dns.go:333-335 | removes exactly the given additions |
| Application.Application.PutBackDeletions | handlers/dns.go:336-340 | puts back exactly the given rows |
| Application.Application.Rollback | handlers/dns.go:325-341 | the table minus the additions plus the original rows of the deletions |
| Application.Application.ApplyDeletions | handlers/dns.go:343-351 | all deletions, or the table as it was |
| Application.Application.ApplyAdditions | handlers/dns.go:353-363 | all additions, or the table as it was before the deletions |
| Application.UndoneIsAsBefore | handlers/dns.go:325-341 | additions away first, deletions back second restores the table |
| Application.UndoOrderMatters | handlers/dns.go:326-332 | in the other order a replaced record set is lost |
| Application.Application.ApplyDNSChange | handlers/dns.go:261-376 | the transaction step by step, rollback included, makes the all-or-nothing change of the record sets and answers with its record |
| Application.Application.CreateDNSChange | handlers/dns.go:261-379 | refines the change step on tables and change cache |
| Application.Application.GetDNSChange | handlers/dns.go:386-398 | a poll answers with the change recorded under its triple by whatever run of requests led here, and only while the zone exists |
| Application.Application.CreateDNSRecordSet | handlers/dns.go:108-144 | refines the record-set creation step and stays reachable |
| Application.Application.DeleteDNSRecordSet | handlers/dns.go:400-414 | refines the record-set deletion step and stays reachable |
| Application.Application.CreateSubscription | handlers/pubsub.go:66-83 | refines the subscription creation step and stays reachable |
| Application.Application.ClearPolicy | handlers/iam_bindings.go:29-61 | clearing the shown roles one by one removes every row of the project and no other |
| Application.Application.ReplacePolicy | handlers/iam_bindings.go:29-84 | the two loops refine the policy step, stopping at the first failure |
| Application.Application.SetIAMPolicy | handlers/iam_bindings.go:9-93 | refines the policy step; succeeds if and only if no listed object doubles a member, and then answers with groups, one a role, that show exactly what the last object of each role lists |
| Application.Application.CreateSecretVersion | handlers/secretmanager.go:93-120 | refines the addVersion step |
| Application.Application.FindVersion | handlers/secretmanager.go:171-186 | finds the stored version a path parameter designates, or that there is none |
| Application.Application.AccessSecretVersion | handlers/secretmanager.go:171-200 | succeeds if and only if the number, or "latest", designates a stored version, and answers with that version's payload |
| Application.Application.DestroySecretVersion | handlers/secretmanager.go:208-220 | refines the destroy step |
| Application.Application.EnableSecretVersion | handlers/secretmanager.go:225-245 | refines the enable step, and answers with state "ENABLED" |
| Application.Application.DisableSecretVersion | handlers/secretmanager.go:229-245 | refines the disable step, and answers with state "DISABLED" |
| ServiceNetworking.NetworkOfKey | handlers/handlers.go:112-114 | a slash-free service leaves the network readable in the key |
| ServiceNetworking.PrefixMeansService | handlers/servicenetworking.go:71-76 | the prefix filter selects exactly the keys of the service |
| ServiceNetworking.PrefixedKeys | handlers/servicenetworking.go:71-76 | a key passes the filter exactly when it is the service's key for its own network part |
| ServiceNetworking.KeyIsInjective | handlers/handlers.go:112-114 | keys collide only for equal service and network |
| ServiceNetworking.PeeringOf | handlers/servicenetworking.go:44-46 | a peering the client names is kept, else the default is put in, and nothing else changes |
| ServiceNetworking.ConnectionCache.Create | handlers/servicenetworking.go:32-56 | stores a new connection with its default peering under its key; the snapshot is untouched |
| ServiceNetworking.ConnectionCache.Patch | handlers/servicenetworking.go:94-121 | merges into the known connection in place, the snapshot included when it shares it, or creates one |
| ServiceNetworking.ConnectionCache.Delete | handlers/servicenetworking.go:131-141 | removes that connection only; the snapshot keeps it |
| ServiceNetworking.ConnectionCache.List | handlers/servicenetworking.go:63-87 | lists exactly the connections live under (service, network) pairs of the service, of all networks or of the one asked for, each once |
| ServiceNetworking.ConnectionCache.Reset | handlers/handlers.go:121-126 | empties cache and snapshot |
| ServiceNetworking.ConnectionCache.Snapshot | handlers/handlers.go:128-136 | the snapshot shows, and shares, the live connections |
| ServiceNetworking.ConnectionCache.Restore | handlers/handlers.go:138-149 | the live cache shows the snapshot as it is by then |
| ServiceNetworking.FirstRequestWrites | handlers/servicenetworking.go:32-141 | the first of a list of requests writes into a shared connection exactly when it patches it, and decides whether the rest find it shared |
| ServiceNetworking.OneMoreRequest | handlers/servicenetworking.go:94-141 | after each request, what the rest will write into the snapshot is what all of them write into the snapshot as taken |
| ServiceNetworking.ConnectionCache.Handle | handlers/servicenetworking.go:32-141 | a request shows through to the snapshot exactly when it patches a connection shared with it; a restore shares them all again |
| ServiceNetworking.ConnectionCache.SnapshotRequestsRestore | handlers/handlers.go:128-149 | after any creations, patches, deletions and restores a restore brings back the connections of the snapshot, each with the fields that patches wrote while it was shared; so the snapshot itself exactly when each of those fields already had the value written last |

## Left out

- HTTP, routing, authentication, the JSON codec, the optional envelope around a subscription patch, clocks, UUIDs and random numbers: requests arrive as documents, timestamps and ids as parameters, one timestamp a request; the random draws of an id are a parameter of `NumericId`.
- Responses beyond the stored document: self links added on create, operation envelopes, list envelopes, message texts; the padding of a policy answer.
- Concurrent requests: the change transaction, the topic check of a subscription and the emptiness check of a zone take several database statements, so what is proved is about one request at a time.
- SQLite: files, WAL, failures of I/O and the one-time migration. A table is a map; a new row number is the table's largest plus one; a snapshot by `VACUUM INTO` keeps row numbers.
- Statements of one line (creation, patch and deletion of networks, NATs, SQL rows, service accounts and keys, node pools, zones, topics and secrets; deletion of any row) are transitions on values only, not methods of the `Repository` class: what the model then does not show is the order of the statements inside them.
- Two objects for one document: documents are values, so that a handler and the change cache hold the same map in memory is not visible; for service-networking connections, where it is, the model has objects.
- Tables that only gain and lose rows (disks, addresses, health checks, backend services, certificates, URL maps, proxies, forwarding rules, Cloud Run, Redis, buckets, operations): easy members only. Validation of load-balancer references takes the set of existing names as a parameter.
- Protection of load-balancer resources, instances' networks and clusters' networks after they were admitted: the original does not guard those deletions, so admission is stated at the time of writing.
- Operations no route reaches: deleting a single secret version, adding and removing a single policy member.
- The handlers' own test for a missing `name` or `accountId`, which the repository repeats with another error; the query parameter `secretId`.
- Default population of instances, clusters, SQL instances, and of a zone's visibility and name servers, the pool created with a cluster, KMS, service usage, projects, images, the policy store of service accounts, the full-state dump.
