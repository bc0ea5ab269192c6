/**
 * The CRT issuer (`CrtService.create`): check the request in a fixed order,
 * derive the complementary code from the carrier's licence for the
 * destination, allocate the numbers through the engine and insert one CRT per
 * number.
 */
module CrtService {
  import opened Wrappers
  import opened JsText
  import opened JsArray
  import opened LicenceCode
  import opened Sqlite
  import opened Carriers
  import opened DestinationLicenses
  import opened Sequences
  import opened CrtStore
  import Response
  import opened DocumentNumbers

  const InvalidOrigin: string := "Código de país de origem inválido"
  const MissingDestination: string := "País de destino é obrigatório para definir a licença"
  const InvalidDestination: string := "Código de país de destino inválido"
  const CreateErrorPrefix: string := "Erro ao criar CRT: "
  const IdoneidadeRequired: string := "Transportadora estrangeira deve ter idoneidade configurada para emitir CRT"

  const NoDestinationLicencePrefix: string := "Transportadora não possui licença configurada para destino "
  const BrazilianLicencePrefix: string :=
    "Licença brasileira deve conter pelo menos 4 dígitos após as letras iniciais (ex: BR1234/56). Formato atual: "
  const CreatedSuffix: string := " CRT(s) criado(s) com sucesso"

  function NoDestinationLicence(dest: string): string {
    NoDestinationLicencePrefix + dest
  }

  function BrazilianLicenceRequired(licenca: string): string {
    BrazilianLicencePrefix + licenca
  }

  function CreatedMessage(quantidade: int): string {
    IntToString(quantidade) + CreatedSuffix
  }

  /** The request body; a missing origin or destination is "". */
  datatype CrtRequest = CrtRequest(
    transportadoraId: int,
    quantidade: int,
    faturaComercial: string,
    exportador: string,
    importador: string,
    paisOrigemCodigo: string,
    paisDestinoCodigo: string)

  /** A refused request: the status and message of the error response. */
  datatype Rejection = Rejection(status: int, message: string)

  /** What the checks settle: the origin to number under and the code to pass to the engine. */
  datatype CrtPlan = CrtPlan(origin: string, comp: Option<string>)

  /** `paisOrigemCodigo || transportadora.pais`. */
  function DefaultOrigin(req: CrtRequest, carrierPais: string): string {
    if req.paisOrigemCodigo != "" then req.paisOrigemCodigo else carrierPais
  }

  /** The licence for the destination yields a code: BR needs the pattern, others an idoneidade. */
  predicate YieldsCode(carrierPais: string, l: Licence) {
    if carrierPais == "BR" then MatchesBrazilianPattern(l.licenca) else Truthy(l.idoneidade)
  }

  /**
   * The checks of `create` up to the allocation, in the source's order. The
   * licence lookup reads only licences whose destination is the request's
   * destination; a licence for the origin does not count.
   */
  function CrtPrecheck(carriers: map<int, Carrier>, rows: seq<Licence>, countries: set<string>,
                       req: CrtRequest): (r: Result<CrtPlan, Rejection>)
    ensures r.Failure? && r.error.status == 404 <==> req.transportadoraId !in carriers
    ensures r.Success? ==>
              && req.transportadoraId in carriers
              && r.value.origin == DefaultOrigin(req, carriers[req.transportadoraId].pais)
              && ValidateCountryCode(r.value.origin, countries)
              && ValidateCountryCode(req.paisDestinoCodigo, countries)
              && (r.value.comp.None? <==> req.paisDestinoCodigo == carriers[req.transportadoraId].pais)
    ensures r.Success? && r.value.comp.Some? && carriers[req.transportadoraId].pais == "BR" ==>
              |r.value.comp.value| == 4 && AllDigits(r.value.comp.value)
    ensures r.Success? && r.value.comp.Some? && carriers[req.transportadoraId].pais != "BR" ==>
              r.value.comp.value != ""
  {
    if req.transportadoraId !in carriers then Failure(Rejection(404, CarrierNotFound))
    else
      var carrier := carriers[req.transportadoraId];
      var origin := DefaultOrigin(req, carrier.pais);
      var dest := req.paisDestinoCodigo;
      if !ValidateCountryCode(origin, countries) then Failure(Rejection(400, InvalidOrigin))
      else if dest == "" then Failure(Rejection(400, MissingDestination))
      else if !ValidateCountryCode(dest, countries) then Failure(Rejection(400, InvalidDestination))
      else if dest == carrier.pais then Success(CrtPlan(origin, None))
      else
        var found := Find(RowsOf(rows, req.transportadoraId), DestinationIs(dest));
        if found.None? then Failure(Rejection(400, NoDestinationLicence(dest)))
        else if carrier.pais == "BR" then
          var digits := LicenceDigits(found.value.licenca);
          if digits.None? then Failure(Rejection(500, CreateErrorPrefix + BrazilianLicenceRequired(found.value.licenca)))
          else Success(CrtPlan(origin, digits))
        else if !Truthy(found.value.idoneidade) then Failure(Rejection(500, CreateErrorPrefix + IdoneidadeRequired))
        else Success(CrtPlan(origin, found.value.idoneidade))
  }

  /**
   * When a request passes the checks, stated over the table: a known carrier,
   * valid origin (defaulted) and destination, and either a destination equal to
   * the carrier's country or a stored licence for exactly that destination that
   * yields a code.
   */
  ghost predicate Admissible(carriers: map<int, Carrier>, rows: seq<Licence>, countries: set<string>, req: CrtRequest) {
    && req.transportadoraId in carriers
    && var c := carriers[req.transportadoraId];
    && ValidateCountryCode(DefaultOrigin(req, c.pais), countries)
    && ValidateCountryCode(req.paisDestinoCodigo, countries)
    && (req.paisDestinoCodigo == c.pais
        || exists l | l in rows :: DestinationLicenses.Key(l) == (req.transportadoraId, req.paisDestinoCodigo) && YieldsCode(c.pais, l))
  }

  /** With unique keys, the carrier's only formatted row for `dest` is that of its keyed licence. */
  lemma OnlyKeyedRow(rows: seq<Licence>, id: int, dest: string, l: Licence, x: Licence)
    requires UniqueKeys(rows)
    requires l in rows && DestinationLicenses.Key(l) == (id, dest)
    requires x in RowsOf(rows, id) && x.paisDestino == dest
    ensures x == FormatRow(l)
  {
    var j :| 0 <= j < |rows| && rows[j].transportadoraId == id && x == FormatRow(rows[j]);
    var k :| 0 <= k < |rows| && rows[k] == l;
    assert DestinationLicenses.Key(rows[j]) == DestinationLicenses.Key(rows[k]);
    if j < k {
      assert false;
    } else if k < j {
      assert false;
    }
  }

  /** The row the destination lookup finds is the carrier's one licence for that destination. */
  lemma FoundIsTheKeyedRow(rows: seq<Licence>, id: int, dest: string, l: Licence)
    requires UniqueKeys(rows)
    requires l in rows && DestinationLicenses.Key(l) == (id, dest) && dest != ""
    ensures var found := Find(RowsOf(rows, id), DestinationIs(dest));
            found.Some? && found.value == FormatRow(l)
  {
    var own := RowsOf(rows, id);
    var k :| 0 <= k < |rows| && rows[k] == l;
    assert FormatRow(l) in own;
    var fi :| 0 <= fi < |own| && own[fi] == FormatRow(l);
    assert DestinationIs(dest)(own[fi]);
    var found := Find(own, DestinationIs(dest));
    var i :| 0 <= i < |own| && own[i] == found.value && DestinationIs(dest)(own[i]);
    OnlyKeyedRow(rows, id, dest, l, own[i]);
  }

  /** The checks pass exactly for the admissible requests. */
  lemma PrecheckAccepts(carriers: map<int, Carrier>, rows: seq<Licence>, countries: set<string>, req: CrtRequest)
    requires UniqueKeys(rows)
    ensures CrtPrecheck(carriers, rows, countries, req).Success? <==> Admissible(carriers, rows, countries, req)
  {
    var id, dest := req.transportadoraId, req.paisDestinoCodigo;
    if id in carriers && ValidateCountryCode(dest, countries) && dest != carriers[id].pais {
      var c := carriers[id];
      var found := Find(RowsOf(rows, id), DestinationIs(dest));
      if found.Some? {
        assert found.value in RowsOf(rows, id);
        var j :| 0 <= j < |rows| && rows[j].transportadoraId == id && found.value == FormatRow(rows[j]);
        if YieldsCode(c.pais, rows[j]) {
          assert DestinationLicenses.Key(rows[j]) == (id, dest);
        }
      }
      if l :| l in rows && DestinationLicenses.Key(l) == (id, dest) && YieldsCode(c.pais, l) {
        FoundIsTheKeyedRow(rows, id, dest, l);
      }
    }
  }

  /**
   * The refusals of a known carrier, in the source's order, each once the
   * earlier checks pass: an invalid (defaulted) origin, a missing destination
   * and an invalid destination are 400s; a destination equal to the carrier's
   * country needs no code; otherwise the 400 for a missing licence is given
   * exactly when no stored licence has the key (carrier, destination).
   */
  lemma PrecheckRefusals(carriers: map<int, Carrier>, rows: seq<Licence>, countries: set<string>, req: CrtRequest)
    requires req.transportadoraId in carriers
    ensures var r := CrtPrecheck(carriers, rows, countries, req);
            var id, d := req.transportadoraId, req.paisDestinoCodigo;
            var c := carriers[id];
            var o := DefaultOrigin(req, c.pais);
            && (!ValidateCountryCode(o, countries) ==> r == Failure(Rejection(400, InvalidOrigin)))
            && (ValidateCountryCode(o, countries) && d == "" ==> r == Failure(Rejection(400, MissingDestination)))
            && (ValidateCountryCode(o, countries) && d != "" && !ValidateCountryCode(d, countries) ==>
                  r == Failure(Rejection(400, InvalidDestination)))
            && (ValidateCountryCode(o, countries) && ValidateCountryCode(d, countries) && d == c.pais ==>
                  r == Success(CrtPlan(o, None)))
            && (ValidateCountryCode(o, countries) && ValidateCountryCode(d, countries) && d != c.pais ==>
                  (r == Failure(Rejection(400, NoDestinationLicence(d))) <==>
                   forall l | l in rows :: DestinationLicenses.Key(l) != (id, d)))
  {
    if ValidateCountryCode(req.paisDestinoCodigo, countries) {
      LookupMissesIffUnkeyed(rows, req.transportadoraId, req.paisDestinoCodigo);
    }
  }

  /** The destination lookup finds nothing exactly when no stored licence has the key (id, dest). */
  lemma LookupMissesIffUnkeyed(rows: seq<Licence>, id: int, dest: string)
    requires dest != ""
    ensures Find(RowsOf(rows, id), DestinationIs(dest)).None? <==>
            forall l | l in rows :: DestinationLicenses.Key(l) != (id, dest)
  {
    var found := Find(RowsOf(rows, id), DestinationIs(dest));
    if found.Some? {
      assert found.value in RowsOf(rows, id);
      var j :| 0 <= j < |rows| && rows[j].transportadoraId == id && found.value == FormatRow(rows[j]);
      assert rows[j] in rows && DestinationLicenses.Key(rows[j]) == (id, dest);
    }
    if l :| l in rows && DestinationLicenses.Key(l) == (id, dest) {
      assert FormatRow(l) in RowsOf(rows, id);
    }
  }

  /**
   * Past the 400s, the code comes from the carrier's licence for the
   * destination: a BR carrier's licence must match the pattern and gives its
   * four digits, a foreign carrier's licence must carry an idoneidade and
   * gives it; a licence that does not is a 500 with the message `create`
   * wraps its thrown errors in.
   */
  lemma PrecheckCode(carriers: map<int, Carrier>, rows: seq<Licence>, countries: set<string>, req: CrtRequest,
                     l: Licence)
    requires UniqueKeys(rows)
    requires req.transportadoraId in carriers
    requires l in rows && DestinationLicenses.Key(l) == (req.transportadoraId, req.paisDestinoCodigo)
    requires var c := carriers[req.transportadoraId];
             && ValidateCountryCode(DefaultOrigin(req, c.pais), countries)
             && ValidateCountryCode(req.paisDestinoCodigo, countries)
             && req.paisDestinoCodigo != c.pais
    ensures var r := CrtPrecheck(carriers, rows, countries, req);
            var c := carriers[req.transportadoraId];
            var o := DefaultOrigin(req, c.pais);
            && (c.pais == "BR" && LicenceDigits(l.licenca).None? ==>
                  r == Failure(Rejection(500, CreateErrorPrefix + BrazilianLicenceRequired(l.licenca))))
            && (c.pais == "BR" && LicenceDigits(l.licenca).Some? ==> r == Success(CrtPlan(o, LicenceDigits(l.licenca))))
            && (c.pais != "BR" && !Truthy(l.idoneidade) ==> r == Failure(Rejection(500, CreateErrorPrefix + IdoneidadeRequired)))
            && (c.pais != "BR" && Truthy(l.idoneidade) ==> r == Success(CrtPlan(o, l.idoneidade)))
  {
    FoundIsTheKeyedRow(rows, req.transportadoraId, req.paisDestinoCodigo, l);
  }

  /**
   * A foreign carrier holding only a licence for the origin cannot issue a
   * CRT towards another country, although the engine alone would accept the
   * route.
   */
  lemma OriginLicenceDoesNotCount()
    ensures var carriers := map[7 := Carrier(7, "Transportes Asunción", "PY", "PY-77", Some(1), Some(1))];
            var rows := [Licence(7, "AR", "AR-5", Some("ID-5"), None, None)];
            var req := CrtRequest(7, 1, "F-1", "Exp", "Imp", "AR", "BR");
            && CrtPrecheck(carriers, rows, {"AR", "BR", "PY"}, req) == Failure(Rejection(400, NoDestinationLicence("BR")))
            && HasLicenceFor(rows, 7, "AR", "BR")
  {
    var rows := [Licence(7, "AR", "AR-5", Some("ID-5"), None, None)];
    assert RowsOf(rows, 7) == [FormatRow(rows[0])] by {
      assert rows[..0] == [];
    }
    assert rows[0] in rows && ForCountries(rows[0], 7, "AR", "BR");
  }

  // ---------------------------------------------------------------- inserting the CRTs

  /** The CRT built from an allocated number: its origin and code, the request's destination. */
  function CrtOf(n: NumberRecord, req: CrtRequest, today: string): Crt {
    Crt(0, n.numero, n.paisOrigemCodigo, req.paisDestinoCodigo, n.licencaComplementar, n.numeroSequencial,
        req.faturaComercial, req.exportador, req.importador, today, req.transportadoraId)
  }

  function CrtsFrom(numbers: seq<NumberRecord>, req: CrtRequest, today: string): (r: seq<Crt>)
    ensures |r| == |numbers|
    ensures forall i | 0 <= i < |numbers| :: r[i] == CrtOf(numbers[i], req, today)
  {
    seq(|numbers|, i requires 0 <= i < |numbers| => CrtOf(numbers[i], req, today))
  }

  /** The table and the created rows after inserting a run of CRTs one by one, up to the first failure. */
  datatype InsertRun = InsertRun(rows: seq<Crt>, nextId: int, created: seq<Crt>, error: Option<DbError>)

  function InsertAll(rows: seq<Crt>, nextId: int, cs: seq<Crt>): InsertRun
    decreases |cs|
  {
    if cs == [] then InsertRun(rows, nextId, [], None)
    else
      var e := Rejected(rows, cs[0]);
      if e.Some? then InsertRun(rows, nextId, [], e)
      else
        var row := cs[0].(id := nextId);
        var rest := InsertAll(rows + [row], nextId + 1, cs[1..]);
        rest.(created := [row] + rest.created)
  }

  /**
   * The inserts stop at the first CRT the table refuses: the created rows are
   * the CRTs before it, numbered from `nextId`, appended to the table, and the
   * error is that CRT's violation.
   */
  lemma {:induction false} InsertAllStopsAtFirstRefusal(rows: seq<Crt>, nextId: int, cs: seq<Crt>)
    ensures var run := InsertAll(rows, nextId, cs);
            && |run.created| <= |cs|
            && run.rows == rows + run.created
            && run.nextId == nextId + |run.created|
            && (forall i | 0 <= i < |run.created| :: run.created[i] == cs[i].(id := nextId + i))
            && (run.error.None? <==> |run.created| == |cs|)
            && (run.error.Some? ==> run.error == Rejected(run.rows, cs[|run.created|]))
    decreases |cs|
  {
    if cs != [] && Rejected(rows, cs[0]).None? {
      var row := cs[0].(id := nextId);
      InsertAllStopsAtFirstRefusal(rows + [row], nextId + 1, cs[1..]);
      var rest := InsertAll(rows + [row], nextId + 1, cs[1..]);
      assert InsertAll(rows, nextId, cs) == rest.(created := [row] + rest.created);
      assert rest.rows == rows + ([row] + rest.created);
      if rest.error.Some? {
        assert cs[1..][|rest.created|] == cs[1 + |rest.created|];
      }
      forall i | 1 <= i < 1 + |rest.created| ensures ([row] + rest.created)[i] == cs[i].(id := nextId + i) {
        assert rest.created[i - 1] == cs[1..][i - 1].(id := nextId + 1 + (i - 1));
      }
    }
  }

  /**
   * A run of CRTs with no null column, whose numbers are new to the table and
   * pairwise distinct, is inserted in full.
   */
  lemma {:induction false} InsertAllSucceeds(rows: seq<Crt>, nextId: int, cs: seq<Crt>)
    requires forall i | 0 <= i < |cs| :: !HasNullColumn(cs[i]) && !NumeroTaken(rows, cs[i].numero)
    requires forall i, j | 0 <= i < j < |cs| :: cs[i].numero != cs[j].numero
    ensures var run := InsertAll(rows, nextId, cs);
            run.error.None? && |run.created| == |cs|
    decreases |cs|
  {
    if cs != [] {
      var row := cs[0].(id := nextId);
      var rows' := rows + [row];
      forall i | 0 <= i < |cs[1..]| ensures !HasNullColumn(cs[1..][i]) && !NumeroTaken(rows', cs[1..][i].numero) {
        assert cs[1..][i] == cs[i + 1];
        NumeroTakenAppend(rows, row, cs[i + 1].numero);
      }
      InsertAllSucceeds(rows', nextId + 1, cs[1..]);
    }
  }

  // ---------------------------------------------------------------- create

  /**
   * The outcome of `create`, from the state before (`counters0`, `rows0`,
   * `nextId0`) and after (`counters1`, `rows1`). A refused check touches
   * nothing; a failed allocation touches no CRT; otherwise the engine's
   * numbers become CRTs inserted in order until one is refused, which turns
   * the answer into a 500 (the counter and earlier rows stay).
   */
  ghost predicate CreateOutcome(counters0: map<Key, int>, counters1: map<Key, int>,
                                rows0: seq<Crt>, nextId0: int, rows1: seq<Crt>,
                                carriers: map<int, Carrier>, licences: seq<Licence>, countries: set<string>,
                                today: string, req: CrtRequest, resp: Response.ApiResponse<seq<Crt>>)
    requires 1 <= req.quantidade
  {
    match CrtPrecheck(carriers, licences, countries, req)
    case Failure(rej) =>
      resp == Response.Fail(rej.message, rej.status) && counters1 == counters0 && rows1 == rows0
    case Success(plan) =>
      exists numbers: Result<seq<NumberRecord>, string> ::
        && AllocationOutcome(counters0, counters1, carriers, licences, "CRT", req.transportadoraId,
                             plan.origin, req.paisDestinoCodigo, plan.comp, req.quantidade, numbers)
        && AfterAllocation(numbers, rows0, nextId0, rows1, today, req, resp)
  }

  /** What `create` does with the engine's answer. */
  ghost predicate AfterAllocation(numbers: Result<seq<NumberRecord>, string>, rows0: seq<Crt>, nextId0: int,
                                  rows1: seq<Crt>, today: string, req: CrtRequest,
                                  resp: Response.ApiResponse<seq<Crt>>)
  {
    match numbers
    case Failure(msg) => resp == Response.Fail(CreateErrorPrefix + msg, 500) && rows1 == rows0
    case Success(records) =>
      var run := InsertAll(rows0, nextId0, CrtsFrom(records, req, today));
      && rows1 == run.rows
      && resp == (if run.error.None? then Response.Success(run.created, Some(CreatedMessage(req.quantidade)))
                  else Response.Fail(CreateErrorPrefix + run.error.value.message, 500))
  }

  /** The checks of `create`, run against the tables. */
  method CheckRequest(carriers: CarrierTable, licences: LicenceTable, countries: set<string>, req: CrtRequest)
    returns (r: Result<CrtPlan, Rejection>)
    ensures r == CrtPrecheck(carriers.rows, licences.rows, countries, req)
  {
    var carrier := carriers.FindById(req.transportadoraId);
    if carrier.None? {
      return Failure(Rejection(404, CarrierNotFound));
    }
    var origin := DefaultOrigin(req, carrier.value.pais);
    var dest := req.paisDestinoCodigo;
    if !ValidateCountryCode(origin, countries) {
      return Failure(Rejection(400, InvalidOrigin));
    }
    if dest == "" {
      return Failure(Rejection(400, MissingDestination));
    }
    if !ValidateCountryCode(dest, countries) {
      return Failure(Rejection(400, InvalidDestination));
    }
    if dest == carrier.value.pais {
      return Success(CrtPlan(origin, None));
    }
    var own := licences.FindByTransportadora(req.transportadoraId);
    var found := Find(own, DestinationIs(dest));
    if found.None? {
      return Failure(Rejection(400, NoDestinationLicence(dest)));
    }
    if carrier.value.pais == "BR" {
      var digits := LicenceDigits(found.value.licenca);
      if digits.None? {
        return Failure(Rejection(500, CreateErrorPrefix + BrazilianLicenceRequired(found.value.licenca)));
      }
      return Success(CrtPlan(origin, digits));
    }
    if !Truthy(found.value.idoneidade) {
      return Failure(Rejection(500, CreateErrorPrefix + IdoneidadeRequired));
    }
    return Success(CrtPlan(origin, found.value.idoneidade));
  }

  /** The loop of `create` that inserts the CRTs one by one; it stops at the first refused insert. */
  method InsertCrts(crts: CrtTable, cs: seq<Crt>) returns (created: seq<Crt>, error: Option<DbError>)
    requires crts.Valid()
    modifies crts
    ensures crts.Valid()
    ensures var run := InsertAll(old(crts.rows), old(crts.nextId), cs);
            crts.rows == run.rows && created == run.created && error == run.error
  {
    ghost var run := InsertAll(crts.rows, crts.nextId, cs);
    created := [];
    var i := 0;
    while i < |cs|
      invariant 0 <= i <= |cs|
      invariant crts.Valid()
      invariant InsertAll(crts.rows, crts.nextId, cs[i..]).rows == run.rows
      invariant InsertAll(crts.rows, crts.nextId, cs[i..]).error == run.error
      invariant created + InsertAll(crts.rows, crts.nextId, cs[i..]).created == run.created
    {
      var crt := crts.Create(cs[i]);
      if crt.Failure? {
        return created, Some(crt.error);
      }
      assert cs[i..][1..] == cs[i + 1..];
      created := created + [crt.value];
      i := i + 1;
    }
    assert cs[i..] == [];
    return created, None;
  }

  /**
   * `create(crtData)`. `today` is the creation date the clock supplies; the
   * quantity bound is the HTTP layer's.
   */
  method Create(seqs: SequenceTable, carriers: CarrierTable, licences: LicenceTable, crts: CrtTable,
                countries: set<string>, today: string, req: CrtRequest)
    returns (resp: Response.ApiResponse<seq<Crt>>)
    requires 1 <= req.quantidade <= 100
    requires crts.Valid()
    modifies seqs, crts
    ensures crts.Valid()
    ensures CreateOutcome(old(seqs.counters), seqs.counters, old(crts.rows), old(crts.nextId), crts.rows,
                          carriers.rows, licences.rows, countries, today, req, resp)
  {
    var plan := CheckRequest(carriers, licences, countries, req);
    if plan.Failure? {
      return Response.Fail(plan.error.message, plan.error.status);
    }
    var numbers := GetNextNumbers(seqs, carriers, licences, "CRT", req.transportadoraId, plan.value.origin,
                                  req.paisDestinoCodigo, plan.value.comp, req.quantidade);
    if numbers.Failure? {
      resp := Response.Fail(CreateErrorPrefix + numbers.error, 500);
    } else {
      var created, error := InsertCrts(crts, CrtsFrom(numbers.value, req, today));
      if error.Some? {
        resp := Response.Fail(CreateErrorPrefix + error.value.message, 500);
      } else {
        resp := Response.Success(created, Some(CreatedMessage(req.quantidade)));
      }
    }
    assert AfterAllocation(numbers, old(crts.rows), old(crts.nextId), crts.rows, today, req, resp);
  }

  /**
   * A successful `create` returns one CRT per allocated number, in allocation
   * order: consecutive sequence numbers after the last one issued, distinct
   * numbers, the request's destination on each, and the counter at the last.
   */
  lemma SuccessfulCreate(counters0: map<Key, int>, counters1: map<Key, int>,
                         rows0: seq<Crt>, nextId0: int, rows1: seq<Crt>,
                         carriers: map<int, Carrier>, licences: seq<Licence>, countries: set<string>,
                         today: string, req: CrtRequest, resp: Response.ApiResponse<seq<Crt>>)
    requires 1 <= req.quantidade
    requires CreateOutcome(counters0, counters1, rows0, nextId0, rows1, carriers, licences, countries, today, req, resp)
    requires resp.success
    ensures req.transportadoraId in carriers
    ensures resp.data.Some? && |resp.data.value| == req.quantidade
    ensures resp.message == CreatedMessage(req.quantidade)
    ensures var last := LastIssued(counters0, "CRT", req.transportadoraId, carriers[req.transportadoraId]);
            var crts := resp.data.value;
            && (forall i | 0 <= i < |crts| ::
                  && crts[i].numeroSequencial == last + i + 1
                  && crts[i].id == nextId0 + i
                  && crts[i].paisDestinoCodigo == req.paisDestinoCodigo
                  && crts[i].transportadoraId == req.transportadoraId)
            && (forall i, j | 0 <= i < j < |crts| :: crts[i].numero != crts[j].numero)
            && counters1 == counters0[("CRT", req.transportadoraId) := last + req.quantidade]
    ensures rows1 == rows0 + resp.data.value
  {
    var plan := CrtPrecheck(carriers, licences, countries, req).value;
    var numbers: Result<seq<NumberRecord>, string> :|
      && AllocationOutcome(counters0, counters1, carriers, licences, "CRT", req.transportadoraId,
                           plan.origin, req.paisDestinoCodigo, plan.comp, req.quantidade, numbers)
      && AfterAllocation(numbers, rows0, nextId0, rows1, today, req, resp);
    SuccessfulInsert(counters0, counters1, rows0, nextId0, rows1, carriers, licences, today, req, resp,
                     plan.origin, plan.comp, numbers);
  }

  /** The allocation and the inserts of a successful `create`, whatever the checks decided. */
  lemma SuccessfulInsert(counters0: map<Key, int>, counters1: map<Key, int>,
                         rows0: seq<Crt>, nextId0: int, rows1: seq<Crt>,
                         carriers: map<int, Carrier>, licences: seq<Licence>,
                         today: string, req: CrtRequest, resp: Response.ApiResponse<seq<Crt>>,
                         origin: string, comp: Option<string>, numbers: Result<seq<NumberRecord>, string>)
    requires 1 <= req.quantidade
    requires AllocationOutcome(counters0, counters1, carriers, licences, "CRT", req.transportadoraId,
                               origin, req.paisDestinoCodigo, comp, req.quantidade, numbers)
    requires AfterAllocation(numbers, rows0, nextId0, rows1, today, req, resp)
    requires resp.success
    ensures req.transportadoraId in carriers
    ensures resp.data.Some? && |resp.data.value| == req.quantidade
    ensures resp.message == CreatedMessage(req.quantidade)
    ensures var last := LastIssued(counters0, "CRT", req.transportadoraId, carriers[req.transportadoraId]);
            var crts := resp.data.value;
            && (forall i | 0 <= i < |crts| ::
                  && crts[i].numeroSequencial == last + i + 1
                  && crts[i].id == nextId0 + i
                  && crts[i].paisDestinoCodigo == req.paisDestinoCodigo
                  && crts[i].transportadoraId == req.transportadoraId)
            && (forall i, j | 0 <= i < j < |crts| :: crts[i].numero != crts[j].numero)
            && counters1 == counters0[("CRT", req.transportadoraId) := last + req.quantidade]
    ensures rows1 == rows0 + resp.data.value
  {
    AllocatedRecords(counters0, counters1, carriers, licences, "CRT", req.transportadoraId,
                     origin, req.paisDestinoCodigo, comp, req.quantidade, numbers);
    InsertedRun(numbers.value, rows0, nextId0, req, today,
                LastIssued(counters0, "CRT", req.transportadoraId, carriers[req.transportadoraId]));
  }

  /** A run of CRTs inserted in full keeps the records' order, sequence numbers and distinct numbers. */
  lemma InsertedRun(records: seq<NumberRecord>, rows0: seq<Crt>, nextId0: int, req: CrtRequest, today: string,
                    last: int)
    requires forall i | 0 <= i < |records| :: records[i].numeroSequencial == last + i + 1
    requires forall i, j | 0 <= i < j < |records| :: records[i].numero != records[j].numero
    requires InsertAll(rows0, nextId0, CrtsFrom(records, req, today)).error.None?
    ensures var crts := InsertAll(rows0, nextId0, CrtsFrom(records, req, today)).created;
            && |crts| == |records|
            && InsertAll(rows0, nextId0, CrtsFrom(records, req, today)).rows == rows0 + crts
            && (forall i | 0 <= i < |crts| ::
                  && crts[i].numeroSequencial == last + i + 1
                  && crts[i].id == nextId0 + i
                  && crts[i].paisDestinoCodigo == req.paisDestinoCodigo
                  && crts[i].transportadoraId == req.transportadoraId)
            && (forall i, j | 0 <= i < j < |crts| :: crts[i].numero != crts[j].numero)
  {
    InsertAllStopsAtFirstRefusal(rows0, nextId0, CrtsFrom(records, req, today));
  }

  /**
   * A request without an invoice, an exporter or an importer creates no CRT:
   * the first insert meets the NOT NULL column. When the checks pass, the
   * numbers have already been drawn and the answer is a 500.
   */
  lemma MissingPartyCreatesNothing(counters0: map<Key, int>, counters1: map<Key, int>,
                                   rows0: seq<Crt>, nextId0: int, rows1: seq<Crt>,
                                   carriers: map<int, Carrier>, licences: seq<Licence>, countries: set<string>,
                                   today: string, req: CrtRequest, resp: Response.ApiResponse<seq<Crt>>)
    requires 1 <= req.quantidade
    requires CreateOutcome(counters0, counters1, rows0, nextId0, rows1, carriers, licences, countries, today, req, resp)
    requires req.faturaComercial == "" || req.exportador == "" || req.importador == ""
    ensures !resp.success && rows1 == rows0
    ensures CrtPrecheck(carriers, licences, countries, req).Success? ==> resp.statusCode == Some(500)
  {
    if CrtPrecheck(carriers, licences, countries, req).Success? {
      var plan := CrtPrecheck(carriers, licences, countries, req).value;
      var numbers: Result<seq<NumberRecord>, string> :|
        && AllocationOutcome(counters0, counters1, carriers, licences, "CRT", req.transportadoraId,
                             plan.origin, req.paisDestinoCodigo, plan.comp, req.quantidade, numbers)
        && AfterAllocation(numbers, rows0, nextId0, rows1, today, req, resp);
      if numbers.Success? {
        AllocatedRecords(counters0, counters1, carriers, licences, "CRT", req.transportadoraId,
                         plan.origin, req.paisDestinoCodigo, plan.comp, req.quantidade, numbers);
        var cs := CrtsFrom(numbers.value, req, today);
        assert HasNullColumn(cs[0]);
      }
    }
  }
}
