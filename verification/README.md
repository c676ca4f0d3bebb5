# Anchoring and tax: a verified model

NVNM Chain's `x/anchoring` module keeps registries, versioned records, two checksum indexes and a
role table, and several other components have to agree with that state: a migration into Solidity
storage, a genesis export, an off-chain name index, three codecs and the queries. `x/tax` takes a
share of the collected fees. This project models those parts in Dafny and proves what they promise.

## How the parts fit

- **Keeper.** `Messages` gives each message as a function of the store (`Handle`, `Deliver`, `Run`);
  `Keepers.Keeper` is the store updated field by field, proved against those functions, with the
  roll-back of a failed transaction. `Bookkeeping`, `Access` and `History` prove what every run from
  the empty genesis keeps, `Acceptance` exactly which messages are accepted and what each stores,
  `StoreWrites` the single writes a message makes.
- **Migration.** `MigrationPlan` lists what is written as items with symbolic locations (`Slots.Loc`);
  `Emission` is the sink, `MigrationSteps` says what each step writes, `Migrator` is the walk-and-emit
  code; `MigrationReads` reads storage back by Solidity's rules;
  `MigrationExport` joins run, migration, dump file and reading back, `MigrationLookups` says what the
  contract's name and checksum lookups find. Layout rules follow the Solidity
  documentation, "Layout of State Variables in Storage".
- **Genesis.** `Genesis` and `GenesisKeeper` export and import; `GenesisAcceptance` says exactly which
  genesis is imported and to what, `GenesisRoundTrip` proves the round trip, both for every order in
  which maps are visited.
- **Name index.** `NameIndex` is the table, `Changesets` what a block hands to it, built from the
  writes of `StoreWrites`, `IndexRuns` runs it beside the chain, `LiteralSearch` and `NameSearch` cover matching and paging, `IndexSearch` ties a
  search to the chain.
- **Codecs.** `Varints`, `Protobuf*`, `FieldRules` and `UnknownFields` (Protocol Buffers Encoding
  guide), `Abi*` (Solidity Contract ABI Specification, "Formal Specification of the Encoding"), `Dumps`
  (TEMPOSB block dump), `RoleTexts`, `LowBytes` and `KeyOrder` (role identifiers, cut and padded words,
  walk order as byte order).
- **Queries and tax.** `RecordsQuery` with `Paging`, `RecordsAnswers` saying what it answers of the
  stored versions; `Tax`.

Keccak-256 and the address codec are parameters (`Env`). Nothing assumes keccak injective on all
strings: role results ask that it not collide on the scopes the run itself mentions
(`Access.RunScopes`), migration results ask that its outputs on a finite set of preimages be apart by
more than any array length and away from slots 0 to 10 (`Slots.Spread`). That the preimages differ is
proved.

Where the code and its documentation differ, the code is modelled: the repository's README line 55
says the tax is at most 40%, the code enforces `MaxTax` = 1 (`x/tax/types/params.go:14`); the comment
at `x/anchoring/nameindex/store.go:230-231` says a number above MaxInt64 is past the end of any index,
but a start so clamped still finds a registry whose id is MaxInt64 (`NameSearch.PastTheEndAnswered`).

## Model

| member | source | states |
|---|---|---|
| `Keepers.Keeper.AddRegistry` | x/anchoring/keeper/anchoring.go:13-65 | the new store and id, or the error: next id, the given fields under the sender and block time, its admin role administering itself, the creator its first member, a zero record counter |
| `Keepers.Keeper.GetOrAssignId` | x/anchoring/keeper/anchoring.go:82-102 | a known checksum keeps its record id; a fresh one gets the next, entered in both indexes |
| `Keepers.Keeper.StoreVersion` | x/anchoring/keeper/anchoring.go:102-137 | the next version is stored as latest and the one before loses its mark |
| `Keepers.Keeper.AddRecord` | x/anchoring/keeper/anchoring.go:67-150 | checks, permission, id and version together; returns the id both indexes hold |
| `Keepers.Keeper.UpdateRecordStatus` | x/anchoring/keeper/anchoring.go:152-183 | only the named version's status changes, and only for a writer |
| `Keepers.Keeper.HasAnyRole` | x/anchoring/keeper/keeper.go:132-165 | the early-exit loop finds a role exactly when the sender holds one of them |
| `Keepers.Keeper.CheckPermission` | x/anchoring/keeper/keeper.go:167-187 | the two loops over roles decide as the permission rule does; `Access.MayWriteIsWriter` says which roles that rule asks for |
| `Access.MayWriteIsWriter` | x/anchoring/keeper/keeper.go:167-187 | for a checksum, permission is given if and only if the role table has the account as admin or editor of the registry or of that checksum in it |
| `Keepers.Keeper.IsSoleAdmin` | x/anchoring/rbac/keeper.go:50-62 | the walk that stops at two answers exactly whether one member is left |
| `Keepers.Keeper.CheckAdmin` | x/anchoring/rbac/keeper.go:64-93 | the configured admin role decides, and its absence is an error |
| `Keepers.Keeper.GrantTo` | x/anchoring/rbac/keeper.go:75-106 | the admin entry is written before the check |
| `Keepers.Keeper.GrantRole` | x/anchoring/keeper/msg_server.go:125-175 | scope check, break-glass path and checked path |
| `Keepers.Keeper.RevokeFrom` | x/anchoring/rbac/keeper.go:108-134 | the member goes, unless it is the last of a guarded role |
| `Keepers.Keeper.RevokeRole` | x/anchoring/keeper/msg_server.go:178-229 | scope check, membership check, sole-admin guard, then the checked revocation |
| `Keepers.Keeper.UpdateParams` | x/anchoring/keeper/msg_update_params.go:11-43 | only the module admin changes the admin, and only to a readable address |
| `Keepers.Keeper.Dispatch` | x/anchoring/keeper/msg_server.go:65-229 | every message through its basic validation to its handler |
| `Keepers.Keeper.DeliverTx` | x/anchoring/keeper/msg_server.go:65-229 | a failed message leaves every collection as it was |
| `Keepers.Keeper.DeliverAll` | x/anchoring/keeper/msg_server.go:65-229 | a run of transactions is the run of the message functions |
| `Bookkeeping.DeliverKeeps` | x/anchoring/keeper/anchoring.go:13-183 | every message keeps the books consistent |
| `Bookkeeping.RunsAreConsistent` | x/anchoring/keeper/anchoring.go:13-183 | in every run: registry ids are exactly 1 to the count, the checksum indexes are transposes, ids are 1 to the count, versions 1 to the latest, each carrying its own key, exactly the highest marked |
| `Bookkeeping.RunsMatchChecksumsToIds` | x/anchoring/keeper/anchoring.go:82-137 | in every run checksums and record ids match one to one, and a record's versions share a checksum |
| `Acceptance.AddRegistryStores` | x/anchoring/keeper/anchoring.go:13-65 | an accepted registry is the one new entry, each field as sent, under the next id, the creator its only new member, every other collection as it was |
| `Acceptance.AddRegistryAccepted` | x/anchoring/keeper/msg_server.go:65-90 | a registry is accepted if and only if its sender reads and its texts have the allowed lengths |
| `Acceptance.AddRecordAccepted` | x/anchoring/keeper/anchoring.go:67-150 | in a consistent store a record is accepted if and only if it is well formed, its registry exists and its sender is a writer; without the role, and only then, it is unauthorised |
| `Acceptance.AddRecordRefused` | x/anchoring/keeper/anchoring.go:67-80 | a refused record is invalid if and only if it is not well formed, not found if and only if only its registry is missing |
| `Acceptance.UpdateStatusAccepted` | x/anchoring/keeper/anchoring.go:152-183 | a status is changed if and only if the version exists, the status has an allowed length and the editor is a writer of its checksum; without the role it is unauthorised |
| `Acceptance.UpdateStatusRefused` | x/anchoring/keeper/anchoring.go:152-165 | so for a status update and its version |
| `Acceptance.GrantAccepted` | x/anchoring/keeper/msg_server.go:125-175 | a grant is accepted if and only if it is well formed, its scope exists, and it comes from the registry's admin or from the module admin adding a registry admin |
| `Acceptance.GrantRefused` | x/anchoring/keeper/msg_server.go:125-175 | which error a refused grant gives: invalid, not found or missing role |
| `Acceptance.GrantStores` | x/anchoring/rbac/keeper.go:75-106 | it gives the one account the one role, under the registry's admin role, and changes nothing else |
| `Acceptance.RevokeAccepted` | x/anchoring/keeper/msg_server.go:178-229 | a revocation is accepted if and only if it is well formed, its scope exists, the account holds the role without being the registry's only admin, and the sender holds the configured admin role |
| `Acceptance.RevokeRefused` | x/anchoring/keeper/msg_server.go:178-229 | when a refused revocation is invalid and when not found |
| `Acceptance.RunsRevoke` | x/anchoring/keeper/msg_server.go:178-229 | in every run that admin role is the registry's |
| `Acceptance.RevokeStores` | x/anchoring/rbac/keeper.go:108-134 | it takes the one role from the one account and changes nothing else |
| `Acceptance.UpdateParamsAccepted` | x/anchoring/keeper/msg_update_params.go:11-43 | accepted if and only if the current admin sends it, with no new admin or a readable one, which is then stored |
| `Acceptance.OnlyTheAdminChangesParams` | x/anchoring/keeper/msg_update_params.go:11-43 | no other message changes the parameters |
| `Roles.IdentifierInjective` | x/anchoring/keeper/keeper.go:189-196 | different scopes have different role identifiers, whatever bytes the checksum and role hold |
| `Roles.RoleDeterminesScope` | x/anchoring/keeper/keeper.go:189-196 | among scopes keccak does not collide on, a role names one scope |
| `RoleTexts.RegistryRoleSpells` | x/anchoring/keeper/keeper.go:193-196 | a registry role's identifier reads "registry:", the id in decimal, a colon, the role |
| `RoleTexts.RecordRoleSpells` | x/anchoring/keeper/keeper.go:187-191 | a record role's reads "record:", the id, a colon, checksum and role in hex with a colon between |
| `RoleTexts.DecimalReads` | x/anchoring/keeper/keeper.go:187-196 | the digits are the number, without a leading zero |
| `RoleTexts.HexReads` | x/anchoring/keeper/keeper.go:187-191 | two lower-case hex digits for each byte, the high one first |
| `Access.RunsKeepRoles` | x/anchoring/rbac/keeper.go:64-134 | in every run each role with members has an admin, which is its registry's admin role, and stands for a live scope |
| `Access.RunsAlwaysHaveAdmins` | x/anchoring/keeper/msg_server.go:196-226 | in every run every registry has a registry-level admin |
| `Access.FirstVersionNeedsRegistryRole` | x/anchoring/keeper/anchoring.go:77-101 | in every run only a registry-level admin or editor adds the first version of a checksum |
| `Access.OnlyTheEntitledChangeRoles` | x/anchoring/keeper/msg_server.go:125-229 | in every run a role of a registry changes hands only by its creation, its admin, or a module admin adding an admin |
| `History.AddRecordStores` | x/anchoring/keeper/anchoring.go:82-137 | an accepted record is the one new version, with the submitted fields and the block time; only the version before it changes, and only its mark |
| `History.StatusNeedsWriter` | x/anchoring/keeper/anchoring.go:152-183 | no message changes a status but an update of that very version, by an account the role table has as admin or editor of its registry or checksum, to the status it sends |
| `History.VersionsAreForever` | x/anchoring/keeper/anchoring.go:67-183 | over any continuation of a run every version stays, with its content |
| `History.RevokeUndoesGrant` | x/anchoring/keeper/msg_server.go:125-229 | an admin can take back a role just given, and memberships are as before |
| `KeyOrder.TripleOrder` | x/anchoring/keeper/keeper.go:76-82 | walks over versions meet them in the byte order of three big-endian ids |
| `KeyOrder.PairOrder` | x/anchoring/keeper/keeper.go:97-103 | so for registry and record id |
| `KeyOrder.IdStrOrder` | x/anchoring/keeper/keeper.go:83-89 | so for registry and checksum |
| `KeyOrder.StrIdOrder` | x/anchoring/keeper/keeper.go:104-110 | so for a checksum without a zero byte, ended by one, and registry |
| `KeyOrder.MemberOrder` | x/anchoring/rbac/keeper.go:31-42 | so for role and account |
| `Slots.SlotInjective` | x/anchoring/evmlayout/layout.go:59-115 | two symbolic locations in play with one slot are one location |
| `Slots.PreimageSplits` | x/anchoring/evmlayout/layout.go:66-86 | a hash preimage determines its key and its 32-byte parent, for string keys of any length |
| `LowBytes.AtIsOffset` | x/anchoring/evmlayout/layout.go:65-68 | a slot past another is their sum modulo 2^256 |
| `LowBytes.FixedSizes` | x/anchoring/rbac/role.go:16-18 | bytes are made a role by cutting or padding to 32, an address to 20 |
| `LowBytes.FixedIsLow` | x/anchoring/evmlayout/migrate.go:136-153 | cut or padded to n bytes they keep their number modulo 256 to the n: long ones lose their front, short ones are padded there |
| `Layout.ReadStringBack` | x/anchoring/evmlayout/layout.go:90-107 | Solidity reads every string back, on both sides of the 31/32 byte boundary |
| `Layout.ReadIdsBack` | x/anchoring/evmlayout/layout.go:145-157 | Solidity reads every list of uint64 back, four to a word |
| `Layout.UnpackRecord` | x/anchoring/evmlayout/layout.go:161-170 | the packed word gives back record id, index, mark and registry id |
| `Layout.ReadRegistryBack` | x/anchoring/evmlayout/layout.go:117-126 | Solidity reads every registry struct back |
| `Layout.ReadRecordBack` | x/anchoring/evmlayout/layout.go:128-141 | Solidity reads every record struct back |
| `LayoutWrites.StringWrites` | x/anchoring/evmlayout/layout.go:90-107 | the loop over 32-byte words emits exactly the string's layout |
| `LayoutWrites.IdsWrites` | x/anchoring/evmlayout/layout.go:145-157 | length word and lanes filled in place are exactly the list's layout |
| `LayoutWrites.AddLane` | x/anchoring/evmlayout/layout.go:149-155 | one more id opens or completes the last word and touches no other |
| `LayoutWrites.PackRecordWord` | x/anchoring/evmlayout/layout.go:161-170 | the bytes set one after another are the packed word |
| `LayoutWrites.RegistryWrites` | x/anchoring/evmlayout/layout.go:117-126 | the registry struct's writes are its layout |
| `LayoutWrites.RecordWrites` | x/anchoring/evmlayout/layout.go:128-141 | the record struct's writes are its layout |
| `MigrationPlan.ItemsExact` | x/anchoring/evmlayout/migrate.go:22-232 | the planned items are exactly what the store holds |
| `MigrationPlan.ItemsNoDup` | x/anchoring/evmlayout/migrate.go:22-232 | no item is planned twice |
| `MigrationStorage.OwnerInjective` | x/anchoring/evmlayout/layout.go:59-115 | different items own different locations, for every string key, the empty one included |
| `MigrationStorage.OwnersApart` | x/anchoring/evmlayout/layout.go:59-115 | no word of an item's own struct is a word another item owns |
| `MigrationStorage.PutsAreDistinct` | x/anchoring/evmlayout/layout.go:59-170 | over all items, words and array data included, no location is put twice |
| `MigrationStorage.LoadGivesValue` | x/anchoring/evmlayout/migrate.go:45-52 | storage holds what was put although zero words are not written |
| `MigrationStorage.SlotsWrittenOnce` | x/anchoring/evmlayout/migrate.go:20-52 | distinct locations in play are written to distinct slots |
| `Migration.MigrationWritesOnce` | x/anchoring/evmlayout/migrate.go:20-52 | a migration writes each slot at most once over all its steps |
| `Migration.PresentHolds` | x/anchoring/evmlayout/migrate.go:22-232 | every word of every present item stands in the migrated storage |
| `Migration.AbsentIsZero` | x/anchoring/evmlayout/migrate.go:45-52 | every location of an absent item reads as zero, for every string key, the empty one included |
| `MigrationReads.MigrationReadsBack` | x/anchoring/evmlayout/migrate.go:22-232 | every getter of the contract, on every key, present or absent or empty, agrees with the keeper's store; for the two list getters `MigrationLookups` says of names and checksums what that means |
| `MigrationLookups.FoldIsCase` | x/anchoring/evmlayout/migrate.go:92-100 | folding leaves no capital A to Z and changes no other byte, and two names fold alike if and only if they are the same up to the case of A to Z |
| `MigrationLookups.NamesListed` | x/anchoring/evmlayout/migrate.go:57-88 | under a name without capitals stand exactly the registries with that name up to case, by ascending id; under any other name none |
| `MigrationLookups.ChecksumsListed` | x/anchoring/evmlayout/migrate.go:157-183 | under a checksum stand exactly the registries that hold it, by ascending id |
| `MigrationLookups.RunsLookUp` | x/anchoring/evmlayout/migrate.go:57-183 | so the contract's lookups by name and by checksum answer after the migration of any run |
| `Emission.EmitOne` | x/anchoring/evmlayout/migrate.go:45-52 | a zero word is dropped, any other is put |
| `Emission.EmitIsNonZero` | x/anchoring/evmlayout/migrate.go:45-52 | what a list of puts leaves in the dump is its writes without the zero words |
| `MigrationSteps.StepsExist` | x/anchoring/evmlayout/migrate.go:22-42 | there are per-key writes, as the store asks for them, that put end to end in the order of the steps are the plan |
| `Migrator.FoldName` | x/anchoring/evmlayout/migrate.go:92-100 | the in-place loop folds as `MigrationLookups.FoldIsCase` describes |
| `Migrator.WalkRegistries` | x/anchoring/evmlayout/migrate.go:57-73 | stops at the first gap in the ids; otherwise writes every registry and groups the ids by folded name |
| `Migrator.MigrateRegistries` | x/anchoring/evmlayout/migrate.go:57-88 | succeeds exactly when ids are dense and the count fits, having emitted registries and name lists |
| `Migrator.MigrateNames` | x/anchoring/evmlayout/migrate.go:82-86 | one id list for every folded name |
| `Migrator.MigrateRecordCounts` | x/anchoring/evmlayout/migrate.go:102-106 | emits every registry's record count |
| `Migrator.MigrateRecords` | x/anchoring/evmlayout/migrate.go:108-114 | emits every version |
| `Migrator.MigrateLatestIndexes` | x/anchoring/evmlayout/migrate.go:116-124 | emits every latest index |
| `Migrator.MigrateRecordIds` | x/anchoring/evmlayout/migrate.go:126-134 | emits every checksum's record id |
| `Migrator.MigrateHeader` | x/anchoring/evmlayout/migrate.go:136-153 | count and admin packed into one word |
| `Migrator.FlushChecksum` | x/anchoring/evmlayout/migrate.go:161-166 | a finished group adds the list of registries holding its checksum to what is written |
| `Migrator.MigrateChecksumIndex` | x/anchoring/evmlayout/migrate.go:157-183 | the group-and-flush walk emits each checksum's registries once, the last group included |
| `Migrator.WalkRoleMembers` | x/anchoring/evmlayout/migrate.go:198-231 | the walk emits every member and, per role, the count of its members, the last role included |
| `Migrator.MigrateRoles` | x/anchoring/evmlayout/migrate.go:187-232 | role admins, then members and counts |
| `Migrator.Migrate` | x/anchoring/evmlayout/migrate.go:22-42 | succeeds exactly on dense ids and a readable admin, having emitted exactly the plan |
| `Groups.StandingNext` | x/anchoring/evmlayout/migrate.go:157-183 | the next entry stays in its group, or the group before it is complete |
| `MigrationExport.Export` | x/anchoring/evmlayout/migrate.go:22-42 | the file parses to the migration's writes |
| `MigrationExport.RunsMigrate` | x/anchoring/evmlayout/migrate.go:22-232 | in every run the migration succeeds, writes no slot twice, and every getter agrees with the store on every key |
| `Dumps.Dump.Put` | x/anchoring/evmlayout/dump.go:40-47 | appends one pair; whole blocks are out, less than a block is pending |
| `Dumps.Dump.Close` | x/anchoring/evmlayout/dump.go:50-52 | what is out encodes everything written, cut into blocks |
| `Dumps.Dump.Flush` | x/anchoring/evmlayout/dump.go:54-72 | header and pending pairs go out, nothing for an empty buffer |
| `Dumps.DumpReadsBack` | x/anchoring/evmlayout/dump.go:40-72 | the file parses, block by block, to exactly the writes, every block but the last full |
| `Dumps.ParseIsEncoding` | x/anchoring/evmlayout/dump.go:54-72 | a file that parses under an address is the encoding of what it parses to, byte for byte |
| `Genesis.MemberKeyRoundTrip` | x/anchoring/rbac/role.go:36-89 | a member key is the role's 32 bytes and then the account, and decodes to them |
| `Genesis.MemberKeysDistinct` | x/anchoring/keeper/genesis.go:190-209 | no two members share a key |
| `GenesisKeeper.ExportGenesis` | x/anchoring/keeper/genesis.go:134-187 | the walks collect the exported genesis |
| `GenesisKeeper.InitRecord` | x/anchoring/keeper/genesis.go:50-102 | one record: refused if invalid, homeless or a duplicate, else entered in every derived index |
| `GenesisKeeper.AddVersion` | x/anchoring/types/record_validation.go:77-93 | a version group counts its marks and its highest index |
| `GenesisKeeper.CheckGroups` | x/anchoring/types/record_validation.go:95-106 | the walk over the groups decides as the group rule does; `GenesisAcceptance.GroupsAccepted` says of the records what that rule asks |
| `GenesisKeeper.InitGenesis` | x/anchoring/keeper/genesis.go:15-131 | the loops import the genesis, or fail where the specification does |
| `GenesisAcceptance.GroupsAccepted` | x/anchoring/types/record_validation.go:77-106 | the groups pass if and only if every record in the list has exactly one marked version, and it is the highest |
| `GenesisAcceptance.RecordsAccepted` | x/anchoring/keeper/genesis.go:50-102 | the records are taken if and only if each is well formed and its registry listed and no key comes twice; the indexes and counters are then those the list gives |
| `GenesisAcceptance.ImportAccepted` | x/anchoring/keeper/genesis.go:15-131 | a genesis is imported, in any order of its maps, if and only if registries and records are well formed, keys agree and come once, each record is marked once and on its highest version, and member keys hold a role; the store then holds what the lists say |
| `GenesisRoundTrip.ImportRebuilds` | x/anchoring/keeper/genesis.go:15-131 | any genesis that lists a consistent store imports to that store, for every order |
| `GenesisRoundTrip.RunsRoundTrip` | x/anchoring/keeper/genesis.go:15-209 | for every run, export then import rebuilds the identical store, for every map order and record permutation |
| `Varints.SovIsLength` | x/anchoring/types/document.pb.go:577-579 | the bit-length formula is the number of varint bytes |
| `Varints.EncodeVarint` | x/anchoring/types/document.pb.go:489-499 | writes the varint just before the offset and nothing else |
| `Varints.ReadVarint` | x/anchoring/types/document.pb.go:588-602 | the shift-and-or loop reads the groups, truncated to 64 bits, or fails on the eleventh byte or the end |
| `Varints.VarintReadsBack` | x/anchoring/types/document.pb.go:489-499 | a written 64-bit number is read back wherever it stands |
| `ProtobufCodec.MarshalRegistry` | x/anchoring/types/document.pb.go:351-397 | the backward writer fills exactly the end of the buffer with the fields in order |
| `ProtobufCodec.MarshalRecord` | x/anchoring/types/document.pb.go:414-487 | the same for records |
| `ProtobufCodec.SizeIsExact` | x/anchoring/types/document.pb.go:500-575 | the size computed up front is the number of bytes written |
| `ProtobufCodec.Marshal` | x/anchoring/types/document.pb.go:336-344 | allocates that size and fills all of it |
| `ProtobufCodec.SkipDocument` | x/anchoring/types/document.pb.go:1131-1208 | ends for every input and finds the length of an unknown field, groups nested to any depth |
| `ProtobufCodec.Unmarshal` | x/anchoring/types/document.pb.go:583-811 | ends for every input, reads only within it, and yields what reading field by field yields |
| `ProtobufCodec.ReadPayload` | x/anchoring/types/document.pb.go:616-787 | wire type, length and end checks of each kind of field |
| `ProtobufCodec.MarshalThenUnmarshal` | x/anchoring/types/document.pb.go:336-1130 | marshal then unmarshal is the document |
| `Protobuf.ConcatenationMerges` | x/anchoring/types/document.pb.go:583-1130 | reading two accepted inputs in turn is reading them concatenated: later fields win |
| `ProtobufRoundTrip.WireRoundTrip` | x/anchoring/types/document.pb.go:336-1130 | every document whose numbers are uint64s comes back from the wire |
| `ProtobufRoundTrip.AcceptsConcatenations` | x/anchoring/types/document.pb.go:583-1208 | an input is accepted if and only if it is a concatenation of single fields, and then nothing of it is left over |
| `FieldRules.FieldsAreNumbered` | x/anchoring/types/document.pb.go:351-487 | every field is written under its schema number, ascending, with the wire type of its value |
| `FieldRules.FieldsAreAll` | x/anchoring/types/document.pb.go:351-487 | every field of the schema is among them and no other |
| `FieldRules.NumberTaken` | x/anchoring/types/document.pb.go:616-787 | a number or flag is taken if and only if it has wire type 0 and a whole varint, and sets that field and no other; a flag is on for any value but zero |
| `FieldRules.TextTaken` | x/anchoring/types/document.pb.go:616-787 | a text is taken if and only if it has wire type 2 and all the bytes its length announces, and sets that field and no other |
| `FieldRules.BadTagRefused` | x/anchoring/types/document.pb.go:588-612 | a tag that does not read, ends a group or has no positive 31-bit number is refused |
| `UnknownFields.FieldSkips` | x/anchoring/types/document.pb.go:1131-1208 | at any group depth, a varint, 8 bytes, delimited bytes, a group of fields or 4 bytes, written by the wire rules, is skipped by exactly its length |
| `UnknownFields.UnknownIsSkipped` | x/anchoring/types/document.pb.go:788-811 | a field of unknown number in front of anything is passed over, the document as it was |
| `UnknownFields.UnknownFieldsChangeNothing` | x/anchoring/types/document.pb.go:583-811 | unknown fields written between any two parts of an accepted encoding change nothing of what is read |
| `Abi.TailReads` | x/anchoring/precompile/anchoring.abi.go:67-301 | for every value of every type in use, decoding its encoding followed by anything gives the value and its size |
| `Abi.Decode` | x/anchoring/precompile/anchoring.abi.go:180-301 | the size it reports never passes the end of the data |
| `AbiCanonical.DecodeCanonical` | x/anchoring/precompile/anchoring.abi.go:180-301 | what is accepted has the type asked for and is, byte for byte, the encoding of the value returned |
| `AbiCanonical.AcceptsEncodings` | x/anchoring/precompile/anchoring.abi.go:171-301 | data is accepted if and only if it starts with an encoding of the type, and then that value and its size are returned |
| `AbiCodec.SizeIsExact` | x/anchoring/precompile/anchoring.abi.go:67-77 | the computed size is the length of the encoding |
| `AbiCodec.EncodeBytes` | x/anchoring/precompile/anchoring.abi.go:87-95 | length, bytes and padding of one string |
| `AbiCodec.EncodeField` | x/anchoring/precompile/anchoring.abi.go:87-96 | the head word or offset, and the tail it points at |
| `AbiCodec.EncodeFields` | x/anchoring/precompile/anchoring.abi.go:80-168 | the two cursors write exactly the heads and tails of the specification |
| `AbiCodec.EncodeSlice` | x/anchoring/precompile/anchoring.abi.go:499-521 | count, offsets and elements of a slice |
| `AbiCodec.EncodeTo` | x/anchoring/precompile/anchoring.abi.go:330-393 | fills exactly the computed size of a zeroed buffer and changes nothing else |
| `AbiCodec.Encode` | x/anchoring/precompile/anchoring.abi.go:171-177 | allocates and fills the encoding |
| `AbiCodec.DecodeTuple` | x/anchoring/precompile/anchoring.abi.go:405-496 | the loop over fields is the decoder |
| `AbiCodec.DecodeSlice` | x/anchoring/precompile/anchoring.abi.go:567-604 | the loop over elements is the decoder |
| `AbiTuples.EncodeThenDecode` | x/anchoring/precompile/anchoring.abi.go:171-301 | encode, append anything, decode: the value and its size |
| `AbiTuples.RecordSurvives` | x/anchoring/precompile/anchoring.abi.go:48-301 | every record comes back, with its size |
| `AbiTuples.RegistrySurvives` | x/anchoring/precompile/anchoring.abi.go:303-496 | every registry comes back, with its size |
| `AbiTuples.PageRequestSurvives` | precompiles/common.abi.go:643-760 | every page request comes back |
| `AbiTuples.RecordsReturnSurvives` | x/anchoring/precompile/anchoring.abi.go:1482-1583 | records with their page response, two levels deep, come back |
| `AbiTuples.RegistriesReturnSurvives` | x/anchoring/precompile/anchoring.abi.go:1710-1811 | registries with their page response come back |
| `AbiTuples.RecordSize` | x/anchoring/precompile/anchoring.abi.go:67-77 | 320 bytes of heads and six padded strings |
| `AbiTuples.RegistrySize` | x/anchoring/precompile/anchoring.abi.go:318-327 | 192 bytes of heads and five padded strings |
| `LiteralSearch.PrefixPattern` | x/anchoring/nameindex/store.go:205-206 | the escaped pattern matches exactly the strings that start with the query |
| `LiteralSearch.SuffixPattern` | x/anchoring/nameindex/store.go:207-208 | on reversed names it matches exactly those that end with the query |
| `LiteralSearch.ReverseRunes` | x/anchoring/nameindex/store.go:281-287 | the swapping loop reverses |
| `LiteralSearch.PhraseMeansQuery` | x/anchoring/nameindex/store.go:275-277 | unquoting the phrase by FTS5's rule gives the query back, all of it |
| `NameIndex.Store.ListenCommit` | x/anchoring/nameindex/listener.go:41-68 | the registry writes of a changeset, decoded and in order, land whole or not at all; `Changesets.ListenerLeaves` and `ListenerTakes` say which writes those are |
| `NameIndex.Store.Backfill` | x/anchoring/keeper/nameindex_backfill.go:19-51 | equal counts leave the table alone; otherwise every registry's row is set and no other touched, or nothing if the batch fails |
| `NameIndex.UpsertedRows` | x/anchoring/nameindex/store.go:130-147 | upserts set their own rows and touch no other |
| `StoreWrites.TxReplays` | x/anchoring/keeper/anchoring.go:13-183 | the single writes of each message, in order, replayed are its effect on the store: none is missing and none too many |
| `StoreWrites.BlockReplays` | x/anchoring/keeper/msg_server.go:65-229 | so with a block of messages |
| `Changesets.ListenerTakes` | x/anchoring/nameindex/listener.go:43-47 | of the module's writes, under prefixes 0, 1, 3 to 8, 10 and 11, the listener takes those to the registries collection and no others, whatever the rest of the keys |
| `Changesets.ListenerLeaves` | x/anchoring/nameindex/listener.go:43-47 | of any writes it takes exactly those of the anchoring store that are no deletions and whose key starts with byte 1 |
| `Changesets.BlockWrites` | x/anchoring/keeper/anchoring.go:13-65 | over any block registries are only added, each with one write under its own id, and every registry write is of a stored registry |
| `Changesets.ChangesetHolds` | x/anchoring/nameindex/listener.go:41-53 | the changeset of every block, flushed in any order, with writes to one entry merged, among writes of any other stores, carries for the listener exactly the registries its transactions added |
| `IndexRuns.IndexIsSubmap` | x/anchoring/nameindex/listener.go:41-68 | over every interleaving of blocks, other writes, failed batches and restarts, each row is the row of a stored registry |
| `IndexRuns.EqualCountsAgree` | x/anchoring/keeper/nameindex_backfill.go:23-33 | equal counts if and only if the index is complete |
| `IndexRuns.BackfillCompletes` | x/anchoring/keeper/nameindex_backfill.go:19-51 | after any blocks, every successful backfill ends with index and chain equal |
| `IndexRuns.ListeningKeepsUp` | x/anchoring/nameindex/listener.go:41-68 | from a complete index a block whose batch commits keeps it complete |
| `IndexRuns.ProtobufSurvives` | x/anchoring/nameindex/store.go:130-134 | the stored bytes decode to the registry |
| `NameSearch.SearchIsLiteral` | x/anchoring/nameindex/store.go:196-213 | each mode's clause on a row is its plain meaning on the folded name |
| `NameSearch.ReadRows` | x/anchoring/nameindex/store.go:242-260 | the loop decodes up to the limit and takes the next start from the row after |
| `NameSearch.ClampsExactly` | x/anchoring/nameindex/store.go:230-240 | search with clamped numbers is search with the numbers asked for, if and only if a start beyond MaxInt64 does not fall on a match at MaxInt64 and a limit beyond it has no full index to cut; the offset clamp is never seen |
| `NameSearch.PageAndRest` | x/anchoring/nameindex/store.go:224-264 | for every start, limit and offset the page is the head of the matches past the offset and next starts the rest, if and only if the start clamp does not show |
| `NameSearch.QueryPages` | x/anchoring/keeper/query.go:273-311 | the same for every 8-byte key, offset and limit the query takes |
| `NameSearch.PastTheEndAnswered` | x/anchoring/nameindex/store.go:230-240 | a key above MaxInt64 is answered with registry MaxInt64, if that matches, although nothing at or past the key does |
| `NameSearch.AnsweredExactly` | x/anchoring/keeper/query.go:273-303 | with an index whose rows decode a search is answered if and only if a name is given, of three runes or more for CONTAINS, with no key or one of 8 bytes without an offset; without an index it never is |
| `NameSearch.FollowingFindsAll` | x/anchoring/keeper/query.go:273-311 | following keys from any offset or key, with any limit per request, ends and returns every match once by ascending id |
| `IndexSearch.SearchAfterBackfill` | x/anchoring/keeper/nameindex_backfill.go:19-51 | after any run and a successful backfill, following pages returns exactly the chain's registries the query selects past its offset |
| `IndexSearch.SearchWithProtobuf` | x/anchoring/nameindex/store.go:130-147 | the same with the protobuf codec, for registries whose encodings fit a slice |
| `IndexSearch.AllOnesKeyFails` | x/anchoring/nameindex/store.go:230-240 | so for the key of eight 0xff bytes, at the complete index of a chain whose registry has the largest id, asked for by its own name in any mode |
| `Paging.Sanitized` | x/anchoring/keeper/query.go:33-47 | no request or limit 0 asks for 50, a limit over 200 for 200, any other for itself; totals are never counted, all else is as sent |
| `Paging.PageIs` | x/anchoring/keeper/query.go:82-97 | a page starts at the offset and holds the limit, or what is left |
| `Paging.PagesTile` | x/anchoring/keeper/query.go:82-97 | pages at consecutive offsets are the list, without gap or repeat |
| `RecordsQuery.Paginator.Step` | x/anchoring/keeper/query.go:82-97 | which keys are taken and when the walk stops, a full page stopping at once |
| `RecordsQuery.CollectLatest` | x/anchoring/keeper/query.go:122-152 | the walk fetches the page's latest versions, or the first error |
| `RecordsQuery.SelectKeys` | x/anchoring/keeper/query.go:156-172 | the walk selects the page's keys |
| `RecordsQuery.FetchLatest` | x/anchoring/keeper/query.go:174-187 | the loop fetches the latest versions of the selected keys |
| `RecordsQuery.Records` | x/anchoring/keeper/query.go:52-226 | the walks and fetches answer as the query's rule does; `RecordsAnswers` says of the stored versions what that answer is |
| `RecordsQuery.ChecksumFindsLatest` | x/anchoring/keeper/query.go:99-120 | a checksum in a registry finds its latest version, an unknown one is not found |
| `RecordsQuery.ListsArePages` | x/anchoring/keeper/query.go:122-226 | on consistent stores a list never fails and is a page of the latest versions under its keys |
| `RecordsAnswers.RefusedExactly` | x/anchoring/keeper/query.go:58-65 | a request is refused if and only if it has a record id without a registry, or an index without a registry and a record id or checksum |
| `RecordsAnswers.VersionAnswered` | x/anchoring/keeper/query.go:99-120 | a request for one version is answered with the one stored version of that registry, by record id or checksum, at the index or else marked latest; with none it is not found |
| `RecordsAnswers.ListKeysExact` | x/anchoring/keeper/query.go:122-226 | a list ranges over exactly the records of the registry, those with the checksum, or all, by ascending registry and record id |
| `RecordsAnswers.ListAnswered` | x/anchoring/keeper/query.go:122-226 | its answer is the asked-for page of exactly the stored latest versions wanted, by ascending registry and record id |
| `RecordsQuery.RunsTile` | x/anchoring/keeper/query.go:122-226 | in every run consecutive pages are the full list |
| `Tax.TaxIsFloor` | x/tax/keeper/keeper.go:75-81 | half-even rounding of the decimal product loses nothing: the truncated tax is the exact floor, at most the balance |
| `Tax.ChopRounds` | x/tax/keeper/keeper.go:75-81 | the decimal product is rounded to the nearest, ties to even |
| `Tax.Keeper.UpdateParams` | x/tax/keeper/msg_update_params.go:13-70 | the checks and assignments one after another give the new parameters or refuse |
| `Tax.UpdateAccepted` | x/tax/keeper/msg_update_params.go:13-70 | in a run an update is accepted if and only if the current tax address sends it, with no rate or one between 0 and 1, and no address or one that reads and is not blocked; what is sent is stored and what is left empty stays |
| `Tax.OnlyTheTaxAddressUpdates` | x/tax/keeper/msg_update_params.go:13-70 | in a run no other event changes the parameters |
| `Tax.Keeper.Allocation` | x/tax/keeper/keeper.go:73-84 | the coins due, denoms that round to nothing left out |
| `Tax.Keeper.AllocateTax` | x/tax/keeper/keeper.go:72-101 | moves what is due, refuses a rate out of range or a blocked recipient |
| `Tax.Keeper.EndBlocker` | x/tax/module/abci.go:11-35 | nothing at rate zero or height one, else the allocation |
| `Tax.BlockMovesFloor` | x/tax/module/abci.go:11-35 | from the second block on, at a rate other than 0, per denom exactly the floor of balance times rate moves to the tax address and no other account changes; before, at rate 0, and when the collector is the tax address nothing does |
| `Tax.TaxConserves` | x/tax/keeper/keeper.go:72-101 | every denom's sum is conserved |
| `Tax.RateStaysInRange` | x/tax/keeper/msg_update_params.go:13-70 | in every run from valid parameters the rate stays within 0 and 1 and the address reads |
| `Tax.OnlyBlockedRecipientsFail` | x/tax/module/abci.go:11-35 | in a run a block's end fails if and only if it is not the first, the recipient is blocked and some balance is worth a whole coin of tax |
| `Tax.RecipientNeverBecomesBlocked` | x/tax/keeper/msg_update_params.go:50-59 | a run that starts with an allowed recipient never fails at a block's end |

## Left out

- Counters and ids are natural numbers in the keeper: wrap-around of uint64 is not modelled; where a width matters (storage words, wire formats, page keys) it is a stated bound.
- Collections are maps walked in the order of their keys, which `KeyOrder` relates to the bytes of the keys; errors of the key codec (a NUL byte in a checksum) do not occur, and a changeset leaves the keys after the prefix, except the registries', open.
- Events, logging, telemetry, gas and context plumbing.
- Keccak-256, bech32, decimal parsing, SQLite's B-tree and the FTS5 tokenizer: parameters or plain sets; a CONTAINS phrase is taken to match the names that hold its text in one piece.
- Case folding and UTF-8 decoding of names are one function parameter of the name index.
- Accounts that are not 20 bytes long in the migration: padding and truncation would merge keys.
- `isIBCRefundTx`, the v2 store migration, the Registries and Registry queries, the other generated protobuf files, the call, event and dummy ABI types, app wiring and commands: plumbing or repeats of what is proved here.
- JSON form of the genesis: the round trip is at the level of the genesis structure.
- Writer and database errors beyond a batch that lands whole or not at all.
- AbiCodec.EncodeFields: asks for zeroed heads and tails, as above; one loop over a table of fields stands for the generated straight-line code of each tuple; fields are taken in head order, as there.
- AbiCodec.EncodeBytes: asks for a zeroed region, as the allocation leaves it: the padding after the bytes is not written.
- AbiCodec.EncodeField: asks for zeroed heads and tails, for the same reason.
- AbiCodec.EncodeSlice: asks for a zeroed region, for the same reason.
- AbiCodec.EncodeTo: asks for a zeroed region, which the generated code relies on by writing only 8 bytes of each offset; what it leaves in a dirty buffer is not described.
- Abi.Decode: the primitives of the ABI library are not part of the repository; they are taken to follow the specification strictly (zero padding, 0 or 1 for a bool, numbers in range), and what is proved of accepted input rests on that.
- ProtobufCodec.Unmarshal: works on a value that is returned, so fields already set when an error is met are not visible.
- Varints.ReadVarint: bits or-ed above those already read are added.
- RecordsQuery.Records: the empty page response is not part of the result.
- NameSearch.QueryPages: the page response's presence when there is no next key is not part of the result.
- Tax.Keeper.Send: a denom at a time, as a map of balances; vesting and send restrictions of the bank are not modelled.
