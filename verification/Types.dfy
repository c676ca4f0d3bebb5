/** The anchoring module's entities, its store and the validators that gate writes. */
module Types {
  import opened Bytes

  /** Account bytes. */
  type Addr = Str

  type Role = Hash

  datatype Registry = Registry(
    id: nat, name: Str, description: Str, creator: Str, createdAt: Str, metadata: Str)

  /** What reading no registry gives. */
  const NO_REGISTRY := Registry(0, [], [], [], [], [])

  datatype PageRequest = PageRequest(key: Str, offset: nat, limit: nat, countTotal: bool, reverse: bool)

  datatype Record = Record(
    uri: Str, checksum: Str, checksumAlgo: Str, metadata: Str, timestamp: Str, status: Str,
    recordId: nat, index: nat, isLatest: bool, registryId: nat)

  datatype Params = Params(admin: Str)

  /** The keeper's collections, one field each. */
  datatype State = State(
    params: Params,
    registries: map<nat, Registry>,
    registryCount: nat,
    records: map<(nat, nat, nat), Record>,       // (registry, record, index)
    idByRegSum: map<(nat, Str), nat>,            // (registry, checksum) -> record id
    idBySumReg: map<(Str, nat), nat>,            // (checksum, registry) -> record id
    recordCounts: map<nat, nat>,
    latest: map<(nat, nat), nat>,                // (registry, record) -> latest index
    roleAdmins: map<Role, Str>,
    roleMembers: map<(Role, Addr), Str>)

  /** What the module takes from outside: keccak-256 and the two halves of the address codec. */
  datatype Env = Env(keccak: Str -> Hash, bech32: Str -> Option<Addr>, text: Addr -> Str) {
    /** The account an address string names; the empty string names none. */
    function Account(s: Str): Option<Addr> {
      if s == [] then None else bech32(s)
    }
  }

  datatype Error =
    | InvalidRequest | InvalidAddress | NotFound | Unauthorized | MissingRole
    | RoleAdminNotConfigured | InvalidGenesis | DuplicateRecordKey

  datatype Result<+T> = Ok(value: T) | Err(error: Error)

  const MAX_CHECKSUM := 64
  const MAX_CHECKSUM_ALGO := 128
  const MAX_URI := 2048
  const MAX_RECORD_METADATA := 2048
  const MAX_STATUS := 64
  const MAX_NAME := 128
  const MAX_DESCRIPTION := 2048
  const MAX_REGISTRY_METADATA := 2048

  /** "{}" */
  const EMPTY_JSON: Str := [123, 125]

  predicate ValidStatus(status: Str) {
    status != [] && |status| <= MAX_STATUS
  }

  predicate ValidRegistryFields(name: Str, description: Str, metadata: Str) {
    && name != [] && |name| <= MAX_NAME
    && |description| <= MAX_DESCRIPTION
    && |metadata| <= MAX_REGISTRY_METADATA
  }

  /** ValidateRegistry: what genesis asks of a registry. */
  predicate ValidRegistry(env: Env, r: Registry) {
    r.id > 0 && env.Account(r.creator).Some? && ValidRegistryFields(r.name, r.description, r.metadata)
  }

  /** ValidateRecordForCreate. */
  predicate ValidRecordFields(r: Record) {
    && r.checksum != [] && r.checksumAlgo != [] && r.uri != []
    && r.metadata != [] && r.metadata != EMPTY_JSON
    && r.registryId != 0
    && |r.checksum| <= MAX_CHECKSUM
    && |r.checksumAlgo| <= MAX_CHECKSUM_ALGO
    && |r.uri| <= MAX_URI
    && |r.metadata| <= MAX_RECORD_METADATA
    && ValidStatus(r.status)
  }

  /** ValidateRecord: what genesis asks of a record. */
  predicate ValidRecord(r: Record) {
    r.recordId > 0 && r.index > 0 && ValidRecordFields(r)
  }

  /** The state InitGenesis leaves for a genesis with parameters only. */
  function EmptyState(params: Params): State {
    State(params, map[], 0, map[], map[], map[], map[], map[], map[], map[])
  }
}
