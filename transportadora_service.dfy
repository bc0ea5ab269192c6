/**
 * The carrier service (`TransportadoraService.create` / `update`): check the
 * home country, write the carrier row, then validate and insert its
 * destination licences one by one, stopping at the first bad one. `update`
 * first deletes all of the carrier's licences, so the list it is given
 * replaces them.
 */
module TransportadoraService {
  import opened Wrappers
  import opened JsArray
  import opened LicenceCode
  import opened Sqlite
  import opened Carriers
  import opened DestinationLicenses
  import Response
  import opened DocumentNumbers

  const InvalidCountry: string := "Código de país inválido"
  const RegistroTaken: string := "Número de registro já existe"
  const Updated: string := "Transportadora atualizada com sucesso"
  const CreateErrorPrefix: string := "Erro ao criar transportadora: "
  const UpdateErrorPrefix: string := "Erro ao atualizar transportadora: "

  /** One entry of `paisesDestino`; a missing `paisDestino` or `licenca` is "". */
  datatype Destination = Destination(
    paisDestino: string,
    licenca: string,
    idoneidade: Option<string>,
    vencimentoLicenca: Option<string>)

  /** The request body; `paisesDestino` defaults to the empty list. */
  datatype CarrierRequest = CarrierRequest(
    nome: string,
    pais: string,
    numeroRegistro: string,
    numeroInicialCRT: Option<int>,
    numeroInicialMicDta: Option<int>,
    paisesDestino: seq<Destination>)

  /** A carrier as `getById` returns it, with its licences. */
  datatype CarrierView = CarrierView(carrier: Carrier, paisesDestino: seq<Licence>)

  /** The starts of the four refusals of a destination, each followed by the destination's code. */
  const InvalidDestination: string := "País de destino inválido: "
  const LicenceRequired: string := "Licença obrigatória para destino: "
  const BrazilianLicenceFormat: string :=
    "Licença brasileira deve conter pelo menos 4 dígitos após as letras iniciais (ex: BR1234/56) para destino: "
  const IdoneidadeRequired: string := "Idoneidade obrigatória para transportadoras estrangeiras no destino: "

  /** The message of the first check a destination fails, for a carrier of country `pais`. */
  function DestinationError(pais: string, d: Destination, countries: set<string>): (r: Option<string>)
    ensures r.None? <==>
              && ValidateCountryCode(d.paisDestino, countries)
              && d.licenca != ""
              && (pais == "BR" ==> MatchesBrazilianPattern(d.licenca))
              && (pais != "BR" ==> Truthy(d.idoneidade))
  {
    if !ValidateCountryCode(d.paisDestino, countries) then Some(InvalidDestination + Render(d.paisDestino))
    else if d.licenca == "" then Some(LicenceRequired + d.paisDestino)
    else if pais == "BR" && !MatchesBrazilianPattern(d.licenca) then Some(BrazilianLicenceFormat + d.paisDestino)
    else if pais != "BR" && !Truthy(d.idoneidade) then
      Some(IdoneidadeRequired + d.paisDestino)
    else None
  }

  /** A Brazilian licence of six digits passes the check: its first four digits match. */
  lemma SixDigitBrazilianLicenceAccepted(countries: set<string>)
    requires "AR" in countries
    ensures DestinationError("BR", Destination("AR", "123456", None, None), countries) == None
  {
    SixDigitLicenceExample();
  }

  /** A foreign carrier's destination without idoneidade is refused. */
  lemma ForeignDestinationNeedsIdoneidade(countries: set<string>)
    requires "BR" in countries
    ensures DestinationError("AR", Destination("BR", "AR-1", Some(""), None), countries)
            == Some(IdoneidadeRequired + "BR")
  {
    var d := Destination("BR", "AR-1", Some(""), None);
    assert ValidateCountryCode(d.paisDestino, countries);
    assert |d.licenca| == 4;
    assert "AR"[0] != "BR"[0];
    assert !Truthy(d.idoneidade);
  }

  /** The row a valid destination becomes. */
  function NewLicence(id: int, d: Destination): Licence {
    Licence(id, d.paisDestino, d.licenca, d.idoneidade, FormatDateToBR(d.vencimentoLicenca), None)
  }

  /** The licence table after adding the destinations in order, and the message that stopped it, if any. */
  datatype AddRun = AddRun(rows: seq<Licence>, rejection: Option<string>)

  /**
   * The destination loop: each destination is checked, then inserted; a check
   * that fails stops the loop with its message, and an insert that meets the
   * UNIQUE(carrier, destination) key stops it with the unique-violation answer.
   */
  function AddAll(rows: seq<Licence>, id: int, pais: string, countries: set<string>, ds: seq<Destination>): AddRun
    decreases |ds|
  {
    if ds == [] then AddRun(rows, None)
    else
      var e := DestinationError(pais, ds[0], countries);
      if e.Some? then AddRun(rows, e)
      else if HasKey(rows, id, ds[0].paisDestino) then AddRun(rows, Some(RegistroTaken))
      else AddAll(rows + [NewLicence(id, ds[0])], id, pais, countries, ds[1..])
  }

  /**
   * The destinations are taken in order: the rows added are those of a
   * prefix of the list, each of which passed its checks, and the loop ends
   * without a message only when the whole list was added.
   */
  lemma {:induction false} AddAllAddsAPrefix(rows: seq<Licence>, id: int, pais: string, countries: set<string>,
                                             ds: seq<Destination>)
    ensures var run := AddAll(rows, id, pais, countries, ds);
            && |rows| <= |run.rows| <= |rows| + |ds|
            && run.rows[..|rows|] == rows
            && (forall k | |rows| <= k < |run.rows| ::
                  run.rows[k] == NewLicence(id, ds[k - |rows|])
                  && DestinationError(pais, ds[k - |rows|], countries).None?)
            && (run.rejection.None? <==> |run.rows| == |rows| + |ds|)
    decreases |ds|
  {
    if ds != [] && DestinationError(pais, ds[0], countries).None? && !HasKey(rows, id, ds[0].paisDestino) {
      var rows' := rows + [NewLicence(id, ds[0])];
      AddAllAddsAPrefix(rows', id, pais, countries, ds[1..]);
      var run := AddAll(rows', id, pais, countries, ds[1..]);
      assert AddAll(rows, id, pais, countries, ds) == run;
      assert run.rows[..|rows|] == rows' [..|rows|];
      forall k | |rows| <= k < |run.rows|
        ensures run.rows[k] == NewLicence(id, ds[k - |rows|]) && DestinationError(pais, ds[k - |rows|], countries).None?
      {
        if k > |rows| {
          assert ds[k - |rows|] == ds[1..][k - |rows'|];
        } else {
          assert run.rows[k] == run.rows[..|rows'|][k];
        }
      }
    }
  }

  /** Destinations that differ from each other and from the carrier's stored ones. */
  predicate NewDistinctDestinations(rows: seq<Licence>, id: int, ds: seq<Destination>) {
    && (forall k | 0 <= k < |ds| :: !HasKey(rows, id, ds[k].paisDestino))
    && (forall j, k | 0 <= j < k < |ds| :: ds[j].paisDestino != ds[k].paisDestino)
  }

  /** Adding the list succeeds exactly when every destination passes and none is taken or repeated. */
  lemma {:induction false} AddAllSucceedsIff(rows: seq<Licence>, id: int, pais: string, countries: set<string>,
                                             ds: seq<Destination>)
    ensures AddAll(rows, id, pais, countries, ds).rejection.None? <==>
              && (forall k | 0 <= k < |ds| :: DestinationError(pais, ds[k], countries).None?)
              && NewDistinctDestinations(rows, id, ds)
    decreases |ds|
  {
    if ds != [] && DestinationError(pais, ds[0], countries).None? && !HasKey(rows, id, ds[0].paisDestino) {
      var l := NewLicence(id, ds[0]);
      var rows' := rows + [l];
      AddAllSucceedsIff(rows', id, pais, countries, ds[1..]);
      forall p ensures HasKey(rows', id, p) <==> HasKey(rows, id, p) || p == ds[0].paisDestino {
        if HasKey(rows', id, p) && p != ds[0].paisDestino {
          var i :| 0 <= i < |rows'| && Key(rows'[i]) == (id, p);
          assert rows[i] == rows'[i];
        }
        if HasKey(rows, id, p) {
          var i :| 0 <= i < |rows| && Key(rows[i]) == (id, p);
          assert rows'[i] == rows[i];
        }
        if p == ds[0].paisDestino {
          assert Key(rows'[|rows|]) == (id, p);
        }
      }
      forall k | 1 <= k < |ds| ensures ds[k] == ds[1..][k - 1] {
      }
    }
  }

  /** The destination loop against the licence table. */
  method AddDestinations(licences: LicenceTable, id: int, pais: string, countries: set<string>, ds: seq<Destination>)
    returns (rejection: Option<string>)
    requires licences.Valid()
    modifies licences
    ensures licences.Valid()
    ensures AddAll(old(licences.rows), id, pais, countries, ds) == AddRun(licences.rows, rejection)
  {
    var i := 0;
    while i < |ds|
      invariant 0 <= i <= |ds|
      invariant licences.Valid()
      invariant AddAll(licences.rows, id, pais, countries, ds[i..]) == AddAll(old(licences.rows), id, pais, countries, ds)
    {
      assert ds[i..][0] == ds[i];
      var d := ds[i];
      var e := DestinationError(pais, d, countries);
      if e.Some? {
        return e;
      }
      var inserted := licences.Create(id, d.paisDestino, d.licenca, d.idoneidade, d.vencimentoLicenca);
      if inserted.Failure? {
        return Some(RegistroTaken);
      }
      assert ds[i..][1..] == ds[i + 1..];
      i := i + 1;
    }
    assert ds[i..] == [];
    return None;
  }

  /** `getById(id)`: the carrier with its licences, or 404. */
  function GetById(carriers: map<int, Carrier>, licences: seq<Licence>, id: int): (r: Response.ApiResponse<CarrierView>)
    ensures r.success <==> id in carriers
    ensures r.success ==> r.data.Some? && r.data.value.carrier == carriers[id]
                          && r.data.value.paisesDestino == RowsOf(licences, id)
                          && (forall i | 0 <= i < |licences| && licences[i].transportadoraId == id ::
                                FormatRow(licences[i]) in r.data.value.paisesDestino)
                          && forall l | l in r.data.value.paisesDestino :: l.transportadoraId == id
    ensures !r.success ==> r.statusCode == Some(404)
  {
    if id !in carriers then Response.Fail(CarrierNotFound, 404)
    else Response.Success(CarrierView(carriers[id], RowsOf(licences, id)), None)
  }

  /**
   * The answer to a refused carrier write: a unique violation is the taken
   * registration number (400); any other error is a 500 carrying its text.
   */
  function WriteFailure<T>(prefix: string, e: DbError): (r: Response.ApiResponse<T>)
    ensures !r.success && r.data.None?
    ensures r.statusCode == Some(400) <==> e.kind == Unique
    ensures e.kind == Unique ==> r.message == RegistroTaken
    ensures e.kind != Unique ==> r.statusCode == Some(500) && r.message == prefix + e.message
  {
    if e.kind == Unique then Response.Fail(RegistroTaken, 400) else Response.Fail(prefix + e.message, 500)
  }

  // ---------------------------------------------------------------- create

  /**
   * The outcome of `create`. A bad country writes nothing; a null column or
   * a taken registration number writes nothing; otherwise the carrier row stays even
   * when a destination is then refused, together with the licences of the
   * destinations before it.
   */
  ghost predicate CreateOutcome(carriers0: map<int, Carrier>, nextId0: int, licences0: seq<Licence>,
                                carriers1: map<int, Carrier>, licences1: seq<Licence>,
                                countries: set<string>, req: CarrierRequest, resp: Response.ApiResponse<CarrierView>)
  {
    if !ValidateCountryCode(req.pais, countries) then
      resp == Response.Fail(InvalidCountry, 400) && carriers1 == carriers0 && licences1 == licences0
    else if CarrierRejected(carriers0, req.nome, req.pais, req.numeroRegistro).Some? then
      && resp == WriteFailure(CreateErrorPrefix, CarrierRejected(carriers0, req.nome, req.pais, req.numeroRegistro).value)
      && carriers1 == carriers0 && licences1 == licences0
    else
      var c := Carrier(nextId0, req.nome, req.pais, req.numeroRegistro,
                       Some(StartingOffset(req.numeroInicialCRT)), Some(StartingOffset(req.numeroInicialMicDta)));
      var run := AddAll(licences0, nextId0, req.pais, countries, req.paisesDestino);
      && carriers1 == carriers0[nextId0 := c]
      && licences1 == run.rows
      && resp == (if run.rejection.Some? then Response.Fail(run.rejection.value, 400)
                  else GetById(carriers1, licences1, nextId0))
  }

  /** `create(transportadoraData)`. */
  method Create(carriers: CarrierTable, licences: LicenceTable, countries: set<string>, req: CarrierRequest)
    returns (resp: Response.ApiResponse<CarrierView>)
    requires carriers.Valid() && licences.Valid()
    modifies carriers, licences
    ensures carriers.Valid() && licences.Valid()
    ensures CreateOutcome(old(carriers.rows), old(carriers.nextId), old(licences.rows), carriers.rows, licences.rows,
                          countries, req, resp)
  {
    if !ValidateCountryCode(req.pais, countries) {
      return Response.Fail(InvalidCountry, 400);
    }
    var created := carriers.Create(req.nome, req.pais, req.numeroRegistro, req.numeroInicialCRT, req.numeroInicialMicDta);
    if created.Failure? {
      return WriteFailure(CreateErrorPrefix, created.error);
    }
    var rejection := AddDestinations(licences, created.value.id, req.pais, countries, req.paisesDestino);
    if rejection.Some? {
      return Response.Fail(rejection.value, 400);
    }
    return GetById(carriers.rows, licences.rows, created.value.id);
  }

  /**
   * A successful `create` returns the new carrier with the offsets defaulted
   * to 1 and exactly the licences of its destinations, in order.
   */
  lemma SuccessfulCreate(carriers0: map<int, Carrier>, nextId0: int, licences0: seq<Licence>,
                         carriers1: map<int, Carrier>, licences1: seq<Licence>,
                         countries: set<string>, req: CarrierRequest, resp: Response.ApiResponse<CarrierView>)
    requires CreateOutcome(carriers0, nextId0, licences0, carriers1, licences1, countries, req, resp)
    requires resp.success
    ensures ValidateCountryCode(req.pais, countries)
    ensures var c := resp.data.value.carrier;
            && c.id == nextId0 && nextId0 in carriers1
            && (req.numeroInicialCRT.None? ==> c.numeroInicialCRT == Some(1))
            && (req.numeroInicialMicDta.None? ==> c.numeroInicialMicDta == Some(1))
    ensures licences1 == licences0 + seq(|req.paisesDestino|, k requires 0 <= k < |req.paisesDestino| =>
                                          NewLicence(nextId0, req.paisesDestino[k]))
    ensures forall k | 0 <= k < |req.paisesDestino| :: DestinationError(req.pais, req.paisesDestino[k], countries).None?
  {
    assert ValidateCountryCode(req.pais, countries) && CarrierRejected(carriers0, req.nome, req.pais, req.numeroRegistro).None?;
    AllDestinationsAdded(licences0, nextId0, req.pais, countries, req.paisesDestino);
  }

  /** A run that ends without a message added every destination, in order, and each passed its checks. */
  lemma AllDestinationsAdded(rows: seq<Licence>, id: int, pais: string, countries: set<string>, ds: seq<Destination>)
    requires AddAll(rows, id, pais, countries, ds).rejection.None?
    ensures AddAll(rows, id, pais, countries, ds).rows
            == rows + seq(|ds|, k requires 0 <= k < |ds| => NewLicence(id, ds[k]))
    ensures forall k | 0 <= k < |ds| :: DestinationError(pais, ds[k], countries).None?
  {
    AddAllAddsAPrefix(rows, id, pais, countries, ds);
    var added := seq(|ds|, k requires 0 <= k < |ds| => NewLicence(id, ds[k]));
    var run := AddAll(rows, id, pais, countries, ds);
    assert run.rows == rows + added by {
      forall k | 0 <= k < |run.rows| ensures run.rows[k] == (rows + added)[k] {
        if k < |rows| {
          assert run.rows[k] == run.rows[..|rows|][k];
        }
      }
    }
    forall k | 0 <= k < |ds| ensures DestinationError(pais, ds[k], countries).None? {
      var j := k + |rows|;
      assert run.rows[j] == NewLicence(id, ds[j - |rows|]);
    }
  }

  /**
   * A refused destination still leaves the carrier row, and the licences of
   * the destinations before it, in the tables.
   */
  lemma RefusedDestinationKeepsCarrier(carriers0: map<int, Carrier>, nextId0: int, licences0: seq<Licence>,
                                       carriers1: map<int, Carrier>, licences1: seq<Licence>,
                                       countries: set<string>, req: CarrierRequest,
                                       resp: Response.ApiResponse<CarrierView>)
    requires CreateOutcome(carriers0, nextId0, licences0, carriers1, licences1, countries, req, resp)
    requires ValidateCountryCode(req.pais, countries)
    requires CarrierRejected(carriers0, req.nome, req.pais, req.numeroRegistro).None?
    requires !resp.success
    ensures nextId0 in carriers1 && carriers1[nextId0].numeroRegistro == req.numeroRegistro
    ensures resp.statusCode == Some(400)
    ensures |licences0| <= |licences1| < |licences0| + |req.paisesDestino| && licences1[..|licences0|] == licences0
    ensures forall k | |licences0| <= k < |licences1| :: licences1[k] == NewLicence(nextId0, req.paisesDestino[k - |licences0|])
  {
    AddAllAddsAPrefix(licences0, nextId0, req.pais, countries, req.paisesDestino);
  }

  /**
   * A request without a name or a registration number writes nothing; with a
   * valid country it is answered with the NOT NULL error as a 500.
   */
  lemma CreateWithNullColumnWritesNothing(carriers0: map<int, Carrier>, nextId0: int, licences0: seq<Licence>,
                                          carriers1: map<int, Carrier>, licences1: seq<Licence>,
                                          countries: set<string>, req: CarrierRequest,
                                          resp: Response.ApiResponse<CarrierView>)
    requires CreateOutcome(carriers0, nextId0, licences0, carriers1, licences1, countries, req, resp)
    requires req.nome == "" || req.numeroRegistro == ""
    ensures !resp.success && carriers1 == carriers0 && licences1 == licences0
    ensures ValidateCountryCode(req.pais, countries) ==> resp.statusCode == Some(500)
    ensures ValidateCountryCode(req.pais, countries) && req.nome == "" ==>
              resp.message == CreateErrorPrefix + ViolationMessage(NotNull, "transportadoras.nome")
  {
    assert CarrierNullColumn(req.nome, req.pais, req.numeroRegistro).Some?;
    assert CarrierRejected(carriers0, req.nome, req.pais, req.numeroRegistro).Some?;
  }

  // ---------------------------------------------------------------- update

  /**
   * The outcome of `update`. A bad country, an unknown id, a null column or a
   * taken registration number write nothing; otherwise every licence of the
   * carrier is deleted and the given destinations are added in their place,
   * up to the first one refused.
   */
  ghost predicate UpdateOutcome(carriers0: map<int, Carrier>, licences0: seq<Licence>,
                                carriers1: map<int, Carrier>, licences1: seq<Licence>,
                                countries: set<string>, id: int, req: CarrierRequest,
                                resp: Response.ApiResponse<()>)
  {
    if !ValidateCountryCode(req.pais, countries) then
      resp == Response.Fail(InvalidCountry, 400) && carriers1 == carriers0 && licences1 == licences0
    else if id !in carriers0 then
      resp == Response.Fail(CarrierNotFound, 404) && carriers1 == carriers0 && licences1 == licences0
    else if CarrierRejected(carriers0 - {id}, req.nome, req.pais, req.numeroRegistro).Some? then
      && resp == WriteFailure(UpdateErrorPrefix, CarrierRejected(carriers0 - {id}, req.nome, req.pais, req.numeroRegistro).value)
      && carriers1 == carriers0 && licences1 == licences0
    else
      var run := AddAll(Filter(licences0, OtherCarrier(id)), id, req.pais, countries, req.paisesDestino);
      && carriers1 == carriers0[id := Carrier(id, req.nome, req.pais, req.numeroRegistro,
                                              req.numeroInicialCRT, req.numeroInicialMicDta)]
      && licences1 == run.rows
      && resp == (if run.rejection.Some? then Response.Fail(run.rejection.value, 400)
                  else Response.Success((), Some(Updated)))
  }

  /** `update(id, transportadoraData)`. */
  method Update(carriers: CarrierTable, licences: LicenceTable, countries: set<string>, id: int, req: CarrierRequest)
    returns (resp: Response.ApiResponse<()>)
    requires carriers.Valid() && licences.Valid()
    modifies carriers, licences
    ensures carriers.Valid() && licences.Valid()
    ensures UpdateOutcome(old(carriers.rows), old(licences.rows), carriers.rows, licences.rows, countries, id, req, resp)
  {
    if !ValidateCountryCode(req.pais, countries) {
      return Response.Fail(InvalidCountry, 400);
    }
    var updated := carriers.Update(id, req.nome, req.pais, req.numeroRegistro, req.numeroInicialCRT, req.numeroInicialMicDta);
    if updated.Failure? {
      return WriteFailure(UpdateErrorPrefix, updated.error);
    }
    if !updated.value {
      return Response.Fail(CarrierNotFound, 404);
    }
    var _ := licences.DeleteByTransportadora(id);
    var rejection := AddDestinations(licences, id, req.pais, countries, req.paisesDestino);
    if rejection.Some? {
      return Response.Fail(rejection.value, 400);
    }
    return Response.Success((), Some(Updated));
  }

  /**
   * A successful `update` replaces the carrier's licences by the given list,
   * in order, and leaves every other carrier's licences as they were.
   */
  lemma SuccessfulUpdateReplacesLicences(carriers0: map<int, Carrier>, licences0: seq<Licence>,
                                         carriers1: map<int, Carrier>, licences1: seq<Licence>,
                                         countries: set<string>, id: int, req: CarrierRequest,
                                         resp: Response.ApiResponse<()>)
    requires UpdateOutcome(carriers0, licences0, carriers1, licences1, countries, id, req, resp)
    requires resp.success
    ensures id in carriers0 && id in carriers1
    ensures forall l | l in licences1 && l.transportadoraId != id :: l in licences0
    ensures forall l | l in licences0 && l.transportadoraId != id :: l in licences1
    ensures var mine := Filter(licences1, OfCarrier(id));
            mine == seq(|req.paisesDestino|, k requires 0 <= k < |req.paisesDestino| => NewLicence(id, req.paisesDestino[k]))
  {
    var kept := Filter(licences0, OtherCarrier(id));
    AddAllAddsAPrefix(kept, id, req.pais, countries, req.paisesDestino);
    var added := seq(|req.paisesDestino|, k requires 0 <= k < |req.paisesDestino| => NewLicence(id, req.paisesDestino[k]));
    assert licences1 == kept + added by {
      forall k | 0 <= k < |licences1| ensures licences1[k] == (kept + added)[k] {
        if k < |kept| {
          assert licences1[k] == licences1[..|kept|][k];
        }
      }
    }
    FilterOfOthersThenMine(kept, added, OfCarrier(id));
  }

  /** Filtering `others + mine` by `p` leaves `mine` when `p` holds on all of `mine` and on none of `others`. */
  lemma {:induction false} FilterOfOthersThenMine(others: seq<Licence>, mine: seq<Licence>, p: Licence -> bool)
    requires forall l | l in others :: !p(l)
    requires forall l | l in mine :: p(l)
    ensures Filter(others + mine, p) == mine
    decreases |mine|
  {
    if mine == [] {
      assert others + mine == others;
      NoneKept(others, p);
    } else {
      var init := mine[..|mine| - 1];
      assert (others + mine)[..|others + mine| - 1] == others + init;
      FilterOfOthersThenMine(others, init, p);
      assert mine == init + [mine[|mine| - 1]];
    }
  }

  lemma {:induction false} NoneKept(s: seq<Licence>, p: Licence -> bool)
    requires forall l | l in s :: !p(l)
    ensures Filter(s, p) == []
  {
    if s != [] {
      NoneKept(s[..|s| - 1], p);
    }
  }

  /**
   * An update of a known carrier without a name or a registration number
   * writes nothing and, with a valid country, is answered as a 500.
   */
  lemma UpdateWithNullColumnWritesNothing(carriers0: map<int, Carrier>, licences0: seq<Licence>,
                                          carriers1: map<int, Carrier>, licences1: seq<Licence>,
                                          countries: set<string>, id: int, req: CarrierRequest,
                                          resp: Response.ApiResponse<()>)
    requires UpdateOutcome(carriers0, licences0, carriers1, licences1, countries, id, req, resp)
    requires req.nome == "" || req.numeroRegistro == ""
    ensures !resp.success && carriers1 == carriers0 && licences1 == licences0
    ensures ValidateCountryCode(req.pais, countries) && id in carriers0 ==> resp.statusCode == Some(500)
  {
  }
}
