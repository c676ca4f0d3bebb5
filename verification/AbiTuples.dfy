/** The precompile's own tuples: what they hold, and that each survives the ABI. */
module AbiTuples {
  import opened Bytes
  import opened Types
  import opened Abi
  import AbiCodec

  datatype PageResponse = PageResponse(nextKey: Str, total: nat)
  datatype RecordsReturn = RecordsReturn(records: seq<Record>, pagination: PageResponse)
  datatype RegistriesReturn = RegistriesReturn(registries: seq<Registry>, pagination: PageResponse)

  const RECORD_TYPE := TupleT([BytesT, BytesT, BytesT, BytesT, BytesT, BytesT, UintT, UintT, BoolT, UintT])
  const REGISTRY_TYPE := TupleT([UintT, BytesT, BytesT, BytesT, BytesT, BytesT])
  const PAGE_REQUEST_TYPE := TupleT([BytesT, UintT, UintT, BoolT, BoolT])
  const PAGE_RESPONSE_TYPE := TupleT([BytesT, UintT])
  const RECORDS_RETURN_TYPE := TupleT([SliceT(RECORD_TYPE), PAGE_RESPONSE_TYPE])
  const REGISTRIES_RETURN_TYPE := TupleT([SliceT(REGISTRY_TYPE), PAGE_RESPONSE_TYPE])

  function RecordVal(r: Record): Val {
    Tuple([Blob(r.uri), Blob(r.checksum), Blob(r.checksumAlgo), Blob(r.metadata), Blob(r.timestamp), Blob(r.status),
           Uint(r.recordId), Uint(r.index), Bool(r.isLatest), Uint(r.registryId)])
  }

  function RegistryVal(r: Registry): Val {
    Tuple([Uint(r.id), Blob(r.name), Blob(r.description), Blob(r.creator), Blob(r.createdAt), Blob(r.metadata)])
  }

  function PageRequestVal(p: PageRequest): Val {
    Tuple([Blob(p.key), Uint(p.offset), Uint(p.limit), Bool(p.countTotal), Bool(p.reverse)])
  }

  function PageResponseVal(p: PageResponse): Val {
    Tuple([Blob(p.nextKey), Uint(p.total)])
  }

  function RecordVals(rs: seq<Record>): seq<Val> { seq(|rs|, i requires 0 <= i < |rs| => RecordVal(rs[i])) }

  function RegistryVals(rs: seq<Registry>): seq<Val> { seq(|rs|, i requires 0 <= i < |rs| => RegistryVal(rs[i])) }

  function RecordsReturnVal(r: RecordsReturn): Val {
    Tuple([Slice(RecordVals(r.records)), PageResponseVal(r.pagination)])
  }

  function RegistriesReturnVal(r: RegistriesReturn): Val {
    Tuple([Slice(RegistryVals(r.registries)), PageResponseVal(r.pagination)])
  }

  // ---- decoding into the structs ----

  function N(v: Val): nat { if v.Uint? then v.n else 0 }

  function S(v: Val): Str { if v.Blob? then v.bytes else [] }

  function B(v: Val): bool { v.Bool? && v.b }

  function AsRecord(v: Val): Record {
    if v.Tuple? && |v.fields| == 10 then
      var f := v.fields;
      Record(S(f[0]), S(f[1]), S(f[2]), S(f[3]), S(f[4]), S(f[5]), N(f[6]), N(f[7]), B(f[8]), N(f[9]))
    else Record([], [], [], [], [], [], 0, 0, false, 0)
  }

  function AsRegistry(v: Val): Registry {
    if v.Tuple? && |v.fields| == 6 then
      var f := v.fields;
      Registry(N(f[0]), S(f[1]), S(f[2]), S(f[3]), S(f[4]), S(f[5]))
    else NO_REGISTRY
  }

  function AsPageRequest(v: Val): PageRequest {
    if v.Tuple? && |v.fields| == 5 then
      var f := v.fields;
      PageRequest(S(f[0]), N(f[1]), N(f[2]), B(f[3]), B(f[4]))
    else PageRequest([], 0, 0, false, false)
  }

  function AsPageResponse(v: Val): PageResponse {
    if v.Tuple? && |v.fields| == 2 then PageResponse(S(v.fields[0]), N(v.fields[1])) else PageResponse([], 0)
  }

  function Elems(v: Val): seq<Val> { if v.Slice? then v.elems else [] }

  function AsRecords(vs: seq<Val>): seq<Record> { seq(|vs|, i requires 0 <= i < |vs| => AsRecord(vs[i])) }

  function AsRegistries(vs: seq<Val>): seq<Registry> { seq(|vs|, i requires 0 <= i < |vs| => AsRegistry(vs[i])) }

  function AsRecordsReturn(v: Val): RecordsReturn {
    if v.Tuple? && |v.fields| == 2 then
      RecordsReturn(AsRecords(Elems(v.fields[0])), AsPageResponse(v.fields[1]))
    else RecordsReturn([], PageResponse([], 0))
  }

  function AsRegistriesReturn(v: Val): RegistriesReturn {
    if v.Tuple? && |v.fields| == 2 then
      RegistriesReturn(AsRegistries(Elems(v.fields[0])), AsPageResponse(v.fields[1]))
    else RegistriesReturn([], PageResponse([], 0))
  }

  function Into<T>(d: Decoded<Val>, reader: Val -> T): Decoded<T> {
    match d
    case Failed(e) => Failed(e)
    case Done(v, n) => Done(reader(v), n)
  }

  // ---- round trips ----

  ghost predicate RecordFits(r: Record) { r.recordId < TWO64 && r.index < TWO64 && r.registryId < TWO64 }

  lemma RecordTyped(r: Record)
    requires RecordFits(r)
    ensures HasType(RecordVal(r), RECORD_TYPE) && AsRecord(RecordVal(r)) == r
  {
  }

  lemma RegistryTyped(r: Registry)
    requires r.id < TWO64
    ensures HasType(RegistryVal(r), REGISTRY_TYPE) && AsRegistry(RegistryVal(r)) == r
  {
  }

  lemma RecordSurvives(r: Record, rest: Str)
    requires RecordFits(r) && |Tail(RecordVal(r)) + rest| <= MAX_INT
    ensures Into(Decode(RECORD_TYPE, Tail(RecordVal(r)) + rest), AsRecord)
         == Done(r, AbiCodec.EncodedSize(RecordVal(r)))
  {
    RecordTyped(r);
    TailReads(RecordVal(r), RECORD_TYPE, rest);
    AbiCodec.SizeIsExact(RecordVal(r));
  }

  lemma RegistrySurvives(r: Registry, rest: Str)
    requires r.id < TWO64 && |Tail(RegistryVal(r)) + rest| <= MAX_INT
    ensures Into(Decode(REGISTRY_TYPE, Tail(RegistryVal(r)) + rest), AsRegistry)
         == Done(r, AbiCodec.EncodedSize(RegistryVal(r)))
  {
    RegistryTyped(r);
    TailReads(RegistryVal(r), REGISTRY_TYPE, rest);
    AbiCodec.SizeIsExact(RegistryVal(r));
  }

  lemma PageRequestSurvives(p: PageRequest, rest: Str)
    requires p.offset < TWO64 && p.limit < TWO64 && |Tail(PageRequestVal(p)) + rest| <= MAX_INT
    ensures Into(Decode(PAGE_REQUEST_TYPE, Tail(PageRequestVal(p)) + rest), AsPageRequest)
         == Done(p, AbiCodec.EncodedSize(PageRequestVal(p)))
  {
    assert HasType(PageRequestVal(p), PAGE_REQUEST_TYPE);
    TailReads(PageRequestVal(p), PAGE_REQUEST_TYPE, rest);
    AbiCodec.SizeIsExact(PageRequestVal(p));
  }

  lemma PageResponseTyped(p: PageResponse)
    requires p.total < TWO64
    ensures HasType(PageResponseVal(p), PAGE_RESPONSE_TYPE) && AsPageResponse(PageResponseVal(p)) == p
  {
  }

  lemma RecordsTyped(rs: seq<Record>)
    requires forall r :: r in rs ==> RecordFits(r)
    ensures HasType(Slice(RecordVals(rs)), SliceT(RECORD_TYPE)) && AsRecords(RecordVals(rs)) == rs
  {
    var vs := RecordVals(rs);
    forall i | 0 <= i < |vs| ensures HasType(vs[i], RECORD_TYPE) && AsRecord(vs[i]) == rs[i] {
      RecordTyped(rs[i]);
    }
  }

  lemma RegistriesTyped(rs: seq<Registry>)
    requires forall r :: r in rs ==> r.id < TWO64
    ensures HasType(Slice(RegistryVals(rs)), SliceT(REGISTRY_TYPE)) && AsRegistries(RegistryVals(rs)) == rs
  {
    var vs := RegistryVals(rs);
    forall i | 0 <= i < |vs| ensures HasType(vs[i], REGISTRY_TYPE) && AsRegistry(vs[i]) == rs[i] {
      RegistryTyped(rs[i]);
    }
  }

  /** Records and page, nested two levels deep, come back whole with trailing bytes ignored. */
  lemma RecordsReturnSurvives(r: RecordsReturn, rest: Str)
    requires (forall x :: x in r.records ==> RecordFits(x)) && r.pagination.total < TWO64
    requires |Tail(RecordsReturnVal(r)) + rest| <= MAX_INT
    ensures Into(Decode(RECORDS_RETURN_TYPE, Tail(RecordsReturnVal(r)) + rest), AsRecordsReturn)
         == Done(r, AbiCodec.EncodedSize(RecordsReturnVal(r)))
  {
    var v := RecordsReturnVal(r);
    RecordsTyped(r.records);
    PageResponseTyped(r.pagination);
    assert HasType(v, RECORDS_RETURN_TYPE) && AsRecordsReturn(v) == r;
    TailReads(v, RECORDS_RETURN_TYPE, rest);
    AbiCodec.SizeIsExact(v);
  }

  lemma RegistriesReturnSurvives(r: RegistriesReturn, rest: Str)
    requires (forall x :: x in r.registries ==> x.id < TWO64) && r.pagination.total < TWO64
    requires |Tail(RegistriesReturnVal(r)) + rest| <= MAX_INT
    ensures Into(Decode(REGISTRIES_RETURN_TYPE, Tail(RegistriesReturnVal(r)) + rest), AsRegistriesReturn)
         == Done(r, AbiCodec.EncodedSize(RegistriesReturnVal(r)))
  {
    var v := RegistriesReturnVal(r);
    RegistriesTyped(r.registries);
    PageResponseTyped(r.pagination);
    assert HasType(v, REGISTRIES_RETURN_TYPE) && AsRegistriesReturn(v) == r;
    TailReads(v, REGISTRIES_RETURN_TYPE, rest);
    AbiCodec.SizeIsExact(v);
  }

  /** What is encoded, with anything after it, decodes to the value and its size. */
  method EncodeThenDecode(v: Val, t: Type, rest: Str) returns (back: Decoded<Val>)
    requires HasType(v, t) && Dynamic(v) && |Tail(v) + rest| <= MAX_INT
    ensures back == Done(v, AbiCodec.EncodedSize(v))
  {
    var bytes := AbiCodec.Encode(v);
    TailReads(v, t, rest);
    back := AbiCodec.DecodeAny(t, bytes + rest);
  }

  function SizeString(s: Str): nat { 32 + Padded(|s|) }

  /** A record takes ten head words and its six padded strings. */
  lemma RecordSize(r: Record)
    ensures AbiCodec.EncodedSize(RecordVal(r))
         == 320 + SizeString(r.uri) + SizeString(r.checksum) + SizeString(r.checksumAlgo)
            + SizeString(r.metadata) + SizeString(r.timestamp) + SizeString(r.status)
  {
    var f := RecordVal(r).fields;
    assert AbiCodec.Sizes(f, 9) == AbiCodec.EncodedSize(f[9]) + AbiCodec.Sizes(f, 10);
    assert AbiCodec.Sizes(f, 8) == AbiCodec.EncodedSize(f[8]) + AbiCodec.Sizes(f, 9);
    assert AbiCodec.Sizes(f, 7) == AbiCodec.EncodedSize(f[7]) + AbiCodec.Sizes(f, 8);
    assert AbiCodec.Sizes(f, 6) == AbiCodec.EncodedSize(f[6]) + AbiCodec.Sizes(f, 7);
    assert AbiCodec.Sizes(f, 5) == AbiCodec.EncodedSize(f[5]) + AbiCodec.Sizes(f, 6);
    assert AbiCodec.Sizes(f, 4) == AbiCodec.EncodedSize(f[4]) + AbiCodec.Sizes(f, 5);
    assert AbiCodec.Sizes(f, 3) == AbiCodec.EncodedSize(f[3]) + AbiCodec.Sizes(f, 4);
    assert AbiCodec.Sizes(f, 2) == AbiCodec.EncodedSize(f[2]) + AbiCodec.Sizes(f, 3);
    assert AbiCodec.Sizes(f, 1) == AbiCodec.EncodedSize(f[1]) + AbiCodec.Sizes(f, 2);
    assert AbiCodec.Sizes(f, 0) == AbiCodec.EncodedSize(f[0]) + AbiCodec.Sizes(f, 1);
  }

  /** A registry takes six head words and its five padded strings. */
  lemma RegistrySize(r: Registry)
    ensures AbiCodec.EncodedSize(RegistryVal(r))
         == 192 + SizeString(r.name) + SizeString(r.description) + SizeString(r.creator)
            + SizeString(r.createdAt) + SizeString(r.metadata)
  {
    var f := RegistryVal(r).fields;
    assert AbiCodec.Sizes(f, 5) == AbiCodec.EncodedSize(f[5]) + AbiCodec.Sizes(f, 6);
    assert AbiCodec.Sizes(f, 4) == AbiCodec.EncodedSize(f[4]) + AbiCodec.Sizes(f, 5);
    assert AbiCodec.Sizes(f, 3) == AbiCodec.EncodedSize(f[3]) + AbiCodec.Sizes(f, 4);
    assert AbiCodec.Sizes(f, 2) == AbiCodec.EncodedSize(f[2]) + AbiCodec.Sizes(f, 3);
    assert AbiCodec.Sizes(f, 1) == AbiCodec.EncodedSize(f[1]) + AbiCodec.Sizes(f, 2);
    assert AbiCodec.Sizes(f, 0) == AbiCodec.EncodedSize(f[0]) + AbiCodec.Sizes(f, 1);
  }
}
