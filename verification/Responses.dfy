/** Decoders of response payloads, with the server's printers they undo. */
module Responses {
  import opened Core
  import opened Text

  const RESP_DELIMITER: byte := 124 // |
  const FIELD_DELIMITER: byte := 59 // ;
  const TAG_OK: Bytes := [111, 107]
  const TAG_ERR: Bytes := [101, 114, 114]
  const TAG_NXT: Bytes := [110, 120, 116]
  const MAX_ERROR_CODE: nat := 9999

  datatype Tagged = Tagged(tag: Bytes, data: Bytes)

  /** The wire form of a tagged payload. */
  function Tag(tag: Bytes, data: Bytes): Bytes {
    tag + [RESP_DELIMITER] + data
  }

  function SplitResponse(payload: Bytes): Result<Tagged> {
    var p := Partition(payload, RESP_DELIMITER);
    if p.found then Ok(Tagged(p.before, p.after)) else Err(Corrupted)
  }

  lemma SplitUndoesTag(tag: Bytes, data: Bytes)
    requires Free(tag, RESP_DELIMITER)
    ensures SplitResponse(Tag(tag, data)) == Ok(Tagged(tag, data))
  {
    PartitionAt(tag, RESP_DELIMITER, data);
  }

  function ParseUint(field: Bytes): Result<nat> {
    if IsNumber(field) then Ok(Number(field)) else Err(Corrupted)
  }

  /** The exception an `err|` body turns into. */
  function ParseError(data: Bytes): Error {
    var p := Partition(data, RESP_DELIMITER);
    if !p.found then Corrupted
    else
      match ParseUint(p.before)
      case Err(e) => e
      case Ok(code) => if code > MAX_ERROR_CODE then Corrupted else Protocol(code)
  }

  function OkData(payload: Bytes): Result<Bytes> {
    var tagged :- SplitResponse(payload);
    if tagged.tag == TAG_OK then Ok(tagged.data)
    else if tagged.tag == TAG_ERR then Err(ParseError(tagged.data))
    else Err(Corrupted)
  }

  lemma OkDataUndoesTag(data: Bytes)
    ensures OkData(Tag(TAG_OK, data)) == Ok(data)
  {
    SplitUndoesTag(TAG_OK, data);
  }

  /** A server error reaches the caller under its own code when that has at most four digits. */
  lemma ErrorRoundTrip(code: nat, message: Bytes)
    ensures OkData(Tag(TAG_ERR, Tag(Decimal(code), message)))
         == Err(if code <= MAX_ERROR_CODE then Protocol(code) else Corrupted)
  {
    SplitUndoesTag(TAG_ERR, Tag(Decimal(code), message));
    DecimalIsFree(code, RESP_DELIMITER);
    PartitionAt(Decimal(code), RESP_DELIMITER, message);
    NumberUndoesDecimal(code);
  }

  /** Without a delimiter a payload is malformed; otherwise what comes before the first one says what it is. */
  lemma OkDataByTag(tag: Bytes, data: Bytes)
    requires Free(tag, RESP_DELIMITER)
    ensures OkData(tag) == Err(Corrupted)
    ensures OkData(Tag(tag, data))
         == if tag == Ascii("ok") then Ok(data)
            else if tag == Ascii("err") then Err(ParseError(data))
            else Err(Corrupted)
    ensures Tag(tag, data) == tag + Ascii("|") + data
  {
    SplitUndoesTag(tag, data);
  }

  /** A server error is its code, a delimiter and a message; the code has a value of at most four digits. */
  lemma ErrorByCode(code: Bytes, message: Bytes)
    requires Free(code, RESP_DELIMITER)
    ensures ParseError(code) == Corrupted
    ensures ParseError(Tag(code, message))
         == if IsNumber(code) && Number(code) < Pow10(4) then Protocol(Number(code)) else Corrupted
  {
    PartitionAt(code, RESP_DELIMITER, message);
    assert Pow10(4) == 10000;
  }

  function ParseBoolField(field: Bytes): Result<bool> {
    if field == [49] then Ok(true) else if field == [48] then Ok(false) else Err(Corrupted)
  }

  function Fields(data: Bytes, expected: nat): Result<seq<Bytes>> {
    var parts := Split(data, FIELD_DELIMITER);
    if |parts| == expected then Ok(parts) else Err(Corrupted)
  }

  datatype HelloInfo = HelloInfo(version: nat, maxMessageSize: nat, authRequired: bool, role: Bytes)

  function ParseHello(payload: Bytes): Result<HelloInfo> {
    var data :- OkData(payload);
    var parts :- Fields(data, 4);
    var size :- ParseUint(parts[1]);
    if size == 0 then Err(Corrupted)
    else
      var version :- ParseUint(parts[0]);
      var authRequired :- ParseBoolField(parts[2]);
      Ok(HelloInfo(version, size, authRequired, parts[3]))
  }

  function PrintHello(info: HelloInfo): Bytes {
    Tag(TAG_OK, Join([Decimal(info.version), Decimal(info.maxMessageSize),
                      if info.authRequired then [49] else [48], info.role], FIELD_DELIMITER))
  }

  lemma HelloRoundTrip(info: HelloInfo)
    requires Free(info.role, FIELD_DELIMITER)
    ensures ParseHello(PrintHello(info)) == if info.maxMessageSize > 0 then Ok(info) else Err(Corrupted)
  {
    var parts := [Decimal(info.version), Decimal(info.maxMessageSize),
                  if info.authRequired then [49] else [48], info.role];
    DecimalIsFree(info.version, FIELD_DELIMITER);
    DecimalIsFree(info.maxMessageSize, FIELD_DELIMITER);
    SplitUndoesJoin(parts, FIELD_DELIMITER);
    OkDataUndoesTag(Join(parts, FIELD_DELIMITER));
    NumberUndoesDecimal(info.version);
    NumberUndoesDecimal(info.maxMessageSize);
  }

  /** Four fields: two numbers, the second of them positive, a bit, and any text. */
  ghost predicate IsHelloBody(parts: seq<Bytes>) {
    && |parts| == 4 && IsNumber(parts[0]) && IsNumber(parts[1]) && Number(parts[1]) > 0
    && (parts[2] == Ascii("0") || parts[2] == Ascii("1"))
  }

  /** A greeting is accepted exactly when it has these fields, and then it says what they say. */
  lemma HelloAccepts(data: Bytes)
    ensures var parts := Split(data, FIELD_DELIMITER);
            (if IsHelloBody(parts)
             then Ok(HelloInfo(Number(parts[0]), Number(parts[1]), parts[2] == Ascii("1"), parts[3]))
             else Err(Corrupted)) == ParseHello(Tag(TAG_OK, data))
  {
    OkDataUndoesTag(data);
  }

  datatype ScanKey = ScanKey(key: Bytes, window: nat)
  datatype ScanResult = ScanResult(cursor: Bytes, keys: seq<ScanKey>)

  function ParseScanKeys(parts: seq<Bytes>): Result<seq<ScanKey>>
    requires |parts| % 2 == 0
  {
    if parts == [] then Ok([])
    else
      var window :- ParseUint(parts[1]);
      var rest :- ParseScanKeys(parts[2..]);
      Ok([ScanKey(parts[0], window)] + rest)
  }

  function ParseScanFields(parts: seq<Bytes>): Result<ScanResult>
    requires parts != []
  {
    if (|parts| - 1) % 2 != 0 then Err(Corrupted)
    else
      var keys :- ParseScanKeys(parts[1..]);
      Ok(ScanResult(parts[0], keys))
  }

  function ParseScan(payload: Bytes): Result<ScanResult> {
    var data :- OkData(payload);
    ParseScanFields(Split(data, FIELD_DELIMITER))
  }

  function ScanFields(keys: seq<ScanKey>): (parts: seq<Bytes>)
    ensures |parts| == 2 * |keys|
  {
    if keys == [] then [] else [keys[0].key, Decimal(keys[0].window)] + ScanFields(keys[1..])
  }

  function PrintScan(page: ScanResult): Bytes {
    Tag(TAG_OK, Join([page.cursor] + ScanFields(page.keys), FIELD_DELIMITER))
  }

  lemma {:induction false} ScanFieldsParse(keys: seq<ScanKey>)
    requires forall k <- keys :: Free(k.key, FIELD_DELIMITER)
    ensures ParseScanKeys(ScanFields(keys)) == Ok(keys)
    ensures forall p <- ScanFields(keys) :: Free(p, FIELD_DELIMITER)
  {
    if keys != [] {
      ScanFieldsParse(keys[1..]);
      NumberUndoesDecimal(keys[0].window);
      DecimalIsFree(keys[0].window, FIELD_DELIMITER);
      assert ScanFields(keys)[2..] == ScanFields(keys[1..]);
      assert keys == [keys[0]] + keys[1..];
    }
  }

  /** Whatever page the server prints, the parser returns it. */
  lemma ScanRoundTrip(page: ScanResult)
    requires Free(page.cursor, FIELD_DELIMITER)
    requires forall k <- page.keys :: Free(k.key, FIELD_DELIMITER)
    ensures ParseScan(PrintScan(page)) == Ok(page)
  {
    ScanFieldsParse(page.keys);
    var parts := [page.cursor] + ScanFields(page.keys);
    SplitUndoesJoin(parts, FIELD_DELIMITER);
    OkDataUndoesTag(Join(parts, FIELD_DELIMITER));
    assert parts[1..] == ScanFields(page.keys);
  }

  /** From a place on, the fields are these keys, each followed by its number. */
  ghost predicate KeysInFields(keys: seq<ScanKey>, parts: seq<Bytes>, from: nat) {
    && |parts| == from + 2 * |keys|
    && forall i | 0 <= i < |keys| ::
         && IsNumber(parts[from + 2 * i + 1])
         && keys[i] == ScanKey(parts[from + 2 * i], Number(parts[from + 2 * i + 1]))
  }

  lemma OneMoreKey(rest: seq<ScanKey>, parts: seq<Bytes>, from: nat)
    requires KeysInFields(rest, parts, from + 2) && IsNumber(parts[from + 1])
    ensures KeysInFields([ScanKey(parts[from], Number(parts[from + 1]))] + rest, parts, from)
  {
    var keys := [ScanKey(parts[from], Number(parts[from + 1]))] + rest;
    forall i | 0 <= i < |keys|
      ensures IsNumber(parts[from + 2 * i + 1])
      ensures keys[i] == ScanKey(parts[from + 2 * i], Number(parts[from + 2 * i + 1]))
    {
      if i > 0 {
        assert keys[i] == rest[i - 1];
      }
    }
  }

  lemma {:induction false} ScanKeysAccepts(parts: seq<Bytes>, k: nat)
    requires k <= |parts| && (|parts| - k) % 2 == 0
    ensures ParseScanKeys(parts[k..]).Ok? <==> forall i | k <= i < |parts| && (i - k) % 2 == 1 :: IsNumber(parts[i])
    decreases |parts| - k
  {
    if k < |parts| {
      assert parts[k..][1] == parts[k + 1];
      assert parts[k..][2..] == parts[k + 2..];
      ScanKeysAccepts(parts, k + 2);
    }
  }

  lemma {:induction false} ScanKeysAre(parts: seq<Bytes>, k: nat)
    requires k <= |parts| && (|parts| - k) % 2 == 0
    ensures match ParseScanKeys(parts[k..])
            case Err(e) => e == Corrupted
            case Ok(keys) => KeysInFields(keys, parts, k)
    decreases |parts| - k
  {
    if k < |parts| {
      assert parts[k..][1] == parts[k + 1] && parts[k..][2..] == parts[k + 2..];
      ScanKeysAre(parts, k + 2);
      if ParseScanKeys(parts[k..]).Ok? {
        OneMoreKey(ParseScanKeys(parts[k + 2..]).value, parts, k);
      }
    }
  }

  /** An odd number of fields, with a number at every even place after the first. */
  ghost predicate IsScanBody(parts: seq<Bytes>) {
    |parts| % 2 == 1 && forall i | 1 <= i < |parts| && i % 2 == 0 :: IsNumber(parts[i])
  }

  lemma ScanFieldsAccepts(parts: seq<Bytes>)
    requires parts != []
    ensures ParseScanFields(parts).Ok? <==> IsScanBody(parts)
    ensures match ParseScanFields(parts)
            case Err(e) => e == Corrupted
            case Ok(page) => page.cursor == parts[0] && KeysInFields(page.keys, parts, 1)
  {
    if |parts| % 2 == 1 {
      ScanKeysAccepts(parts, 1);
      ScanKeysAre(parts, 1);
    }
  }

  /** A scan body is accepted exactly when it is a cursor followed by key/number pairs, and then as these. */
  lemma ScanAccepts(data: Bytes)
    ensures ParseScan(Tag(TAG_OK, data)).Ok? <==> IsScanBody(Split(data, FIELD_DELIMITER))
    ensures var parts := Split(data, FIELD_DELIMITER);
            match ParseScan(Tag(TAG_OK, data))
            case Err(e) => e == Corrupted
            case Ok(page) => page.cursor == parts[0] && KeysInFields(page.keys, parts, 1)
  {
    OkDataUndoesTag(data);
    ScanFieldsAccepts(Split(data, FIELD_DELIMITER));
  }

  datatype QuotaClient = QuotaClient(clientId: Bytes, amount: nat, expiresAt: nat)
  datatype QuotaInfo = QuotaInfo(limit: nat, used: nat, remaining: nat, clients: seq<QuotaClient>)

  function ParseQuotaClients(parts: seq<Bytes>): Result<seq<QuotaClient>>
    requires |parts| % 3 == 0
  {
    if parts == [] then Ok([])
    else
      var amount :- ParseUint(parts[1]);
      var expiresAt :- ParseUint(parts[2]);
      var rest :- ParseQuotaClients(parts[3..]);
      Ok([QuotaClient(parts[0], amount, expiresAt)] + rest)
  }

  function ParseQuotaFields(parts: seq<Bytes>): Result<QuotaInfo> {
    if |parts| < 3 || (|parts| - 3) % 3 != 0 then Err(Corrupted)
    else
      var clients :- ParseQuotaClients(parts[3..]);
      var limit :- ParseUint(parts[0]);
      var used :- ParseUint(parts[1]);
      var remaining :- ParseUint(parts[2]);
      Ok(QuotaInfo(limit, used, remaining, clients))
  }

  function ParseQuotaInfo(payload: Bytes): Result<QuotaInfo> {
    var data :- OkData(payload);
    ParseQuotaFields(Split(data, FIELD_DELIMITER))
  }

  function ClientFields(clients: seq<QuotaClient>): (parts: seq<Bytes>)
    ensures |parts| == 3 * |clients|
  {
    if clients == [] then []
    else [clients[0].clientId, Decimal(clients[0].amount), Decimal(clients[0].expiresAt)] + ClientFields(clients[1..])
  }

  function PrintQuotaInfo(info: QuotaInfo): Bytes {
    Tag(TAG_OK, Join([Decimal(info.limit), Decimal(info.used), Decimal(info.remaining)] + ClientFields(info.clients),
                     FIELD_DELIMITER))
  }

  lemma {:induction false} ClientFieldsParse(clients: seq<QuotaClient>)
    requires forall c <- clients :: Free(c.clientId, FIELD_DELIMITER)
    ensures ParseQuotaClients(ClientFields(clients)) == Ok(clients)
    ensures forall p <- ClientFields(clients) :: Free(p, FIELD_DELIMITER)
  {
    if clients != [] {
      ClientFieldsParse(clients[1..]);
      NumberUndoesDecimal(clients[0].amount);
      NumberUndoesDecimal(clients[0].expiresAt);
      DecimalIsFree(clients[0].amount, FIELD_DELIMITER);
      DecimalIsFree(clients[0].expiresAt, FIELD_DELIMITER);
      assert ClientFields(clients)[3..] == ClientFields(clients[1..]);
      assert clients == [clients[0]] + clients[1..];
    }
  }

  /** Whatever quota the server prints, with any number of clients, the parser returns it. */
  lemma QuotaInfoRoundTrip(info: QuotaInfo)
    requires forall c <- info.clients :: Free(c.clientId, FIELD_DELIMITER)
    ensures ParseQuotaInfo(PrintQuotaInfo(info)) == Ok(info)
  {
    ClientFieldsParse(info.clients);
    var header := [Decimal(info.limit), Decimal(info.used), Decimal(info.remaining)];
    NumberUndoesDecimal(info.limit);
    NumberUndoesDecimal(info.used);
    NumberUndoesDecimal(info.remaining);
    DecimalIsFree(info.limit, FIELD_DELIMITER);
    DecimalIsFree(info.used, FIELD_DELIMITER);
    DecimalIsFree(info.remaining, FIELD_DELIMITER);
    var parts := header + ClientFields(info.clients);
    SplitUndoesJoin(parts, FIELD_DELIMITER);
    OkDataUndoesTag(Join(parts, FIELD_DELIMITER));
    assert parts[3..] == ClientFields(info.clients);
  }

  /** From a place on, the fields are these clients, each with its two numbers. */
  ghost predicate ClientsInFields(clients: seq<QuotaClient>, parts: seq<Bytes>, from: nat) {
    && |parts| == from + 3 * |clients|
    && forall i | 0 <= i < |clients| ::
         && IsNumber(parts[from + 3 * i + 1]) && IsNumber(parts[from + 3 * i + 2])
         && clients[i] == QuotaClient(parts[from + 3 * i], Number(parts[from + 3 * i + 1]),
                                      Number(parts[from + 3 * i + 2]))
  }

  lemma {:induction false} QuotaClientsAccepts(parts: seq<Bytes>, k: nat)
    requires k <= |parts| && (|parts| - k) % 3 == 0
    ensures ParseQuotaClients(parts[k..]).Ok? <==>
            forall i | k <= i < |parts| && (i - k) % 3 != 0 :: IsNumber(parts[i])
    decreases |parts| - k
  {
    if k < |parts| {
      assert parts[k..][1] == parts[k + 1] && parts[k..][2] == parts[k + 2];
      assert parts[k..][3..] == parts[k + 3..];
      QuotaClientsAccepts(parts, k + 3);
    }
  }

  lemma OneMoreClient(rest: seq<QuotaClient>, parts: seq<Bytes>, from: nat)
    requires ClientsInFields(rest, parts, from + 3) && IsNumber(parts[from + 1]) && IsNumber(parts[from + 2])
    ensures var first := QuotaClient(parts[from], Number(parts[from + 1]), Number(parts[from + 2]));
            ClientsInFields([first] + rest, parts, from)
  {
    var clients := [QuotaClient(parts[from], Number(parts[from + 1]), Number(parts[from + 2]))] + rest;
    forall i | 0 <= i < |clients|
      ensures IsNumber(parts[from + 3 * i + 1]) && IsNumber(parts[from + 3 * i + 2])
      ensures clients[i] == QuotaClient(parts[from + 3 * i], Number(parts[from + 3 * i + 1]),
                                        Number(parts[from + 3 * i + 2]))
    {
      if i > 0 {
        assert clients[i] == rest[i - 1];
      }
    }
  }

  lemma {:induction false} QuotaClientsAre(parts: seq<Bytes>, k: nat)
    requires k <= |parts| && (|parts| - k) % 3 == 0
    ensures match ParseQuotaClients(parts[k..])
            case Err(e) => e == Corrupted
            case Ok(clients) => ClientsInFields(clients, parts, k)
    decreases |parts| - k
  {
    if k < |parts| {
      assert parts[k..][1] == parts[k + 1] && parts[k..][2] == parts[k + 2];
      assert parts[k..][3..] == parts[k + 3..];
      QuotaClientsAre(parts, k + 3);
      if ParseQuotaClients(parts[k..]).Ok? {
        OneMoreClient(ParseQuotaClients(parts[k + 3..]).value, parts, k);
      }
    }
  }

  /** Three numbers, then triples whose second and third fields are numbers. */
  ghost predicate IsQuotaBody(parts: seq<Bytes>) {
    && |parts| >= 3 && |parts| % 3 == 0
    && forall i | 0 <= i < |parts| && (i < 3 || i % 3 != 0) :: IsNumber(parts[i])
  }

  ghost predicate QuotaInFields(info: QuotaInfo, parts: seq<Bytes>) {
    && ClientsInFields(info.clients, parts, 3)
    && IsNumber(parts[0]) && IsNumber(parts[1]) && IsNumber(parts[2])
    && info.limit == Number(parts[0]) && info.used == Number(parts[1]) && info.remaining == Number(parts[2])
  }

  lemma QuotaFieldsAccepts(parts: seq<Bytes>)
    ensures ParseQuotaFields(parts).Ok? <==> IsQuotaBody(parts)
    ensures match ParseQuotaFields(parts)
            case Err(e) => e == Corrupted
            case Ok(info) => QuotaInFields(info, parts)
  {
    if |parts| >= 3 && |parts| % 3 == 0 {
      QuotaClientsAccepts(parts, 3);
      QuotaClientsAre(parts, 3);
    }
  }

  /**
   * A quota body is accepted exactly when it has three numbers followed by
   * complete client triples, and then it says what they say.
   */
  lemma QuotaInfoAccepts(data: Bytes)
    ensures ParseQuotaInfo(Tag(TAG_OK, data)).Ok? <==> IsQuotaBody(Split(data, FIELD_DELIMITER))
    ensures match ParseQuotaInfo(Tag(TAG_OK, data))
            case Err(e) => e == Corrupted
            case Ok(info) => QuotaInFields(info, Split(data, FIELD_DELIMITER))
  {
    OkDataUndoesTag(data);
    QuotaFieldsAccepts(Split(data, FIELD_DELIMITER));
  }

  /** What is not a successful response is refused in the same way by every parser. */
  lemma FailureIsPassedOn(payload: Bytes)
    requires OkData(payload).Err?
    ensures ParseHello(payload) == Err(OkData(payload).error)
    ensures ParseScan(payload) == Err(OkData(payload).error)
    ensures ParseQuotaInfo(payload) == Err(OkData(payload).error)
  {
  }
}
