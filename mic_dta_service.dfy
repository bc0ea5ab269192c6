/**
 * The MIC-DTA issuer (`MicDtaService`): `create` dispatches on the document
 * kind, draws exactly one number from the engine, inserts the MIC-DTA and, for
 * a NORMAL one, links it to the CRTs it carries; `addCrtsToMicDta` links more
 * CRTs to an existing one.
 */
module MicDtaService {
  import opened Wrappers
  import opened Sqlite
  import opened Carriers
  import opened DestinationLicenses
  import opened Sequences
  import opened MicDtaStore
  import Response
  import opened DocumentNumbers

  const CrtIdsRequired: string := "crtIds é obrigatório para MIC-DTA NORMAL"
  const NumberFailure: string := "Falha ao gerar número do MIC-DTA"
  const InvalidTipo: string := "Tipo inválido"
  const CreateErrorPrefix: string := "Erro ao criar MIC-DTA: "
  const NormalCreated: string := "MIC-DTA NORMAL criado e CRTs vinculados com sucesso"
  const LastreCreated: string := "MIC-DTA LASTRE criado com sucesso"
  const CrtIdsArrayRequired: string := "Informe um array de crtIds"
  const LinkErrorPrefix: string := "Erro ao associar CRTs ao MIC/DTA: "
  const Linked: string := "CRTs associados ao MIC/DTA com sucesso"

  /**
   * The request body. `crtIds` is `None` when it is missing or not an array;
   * a missing string is "" and a missing code `None`.
   */
  datatype MicDtaRequest = MicDtaRequest(
    tipo: string,
    crtIds: Option<seq<int>>,
    transportadoraId: int,
    paisOrigemCodigo: string,
    paisDestinoCodigo: string,
    licencaComplementar: Option<string>,
    dataCriacao: string)

  /** The data of a created MIC-DTA: the stored row and the `crtIds` of the request, echoed. */
  datatype Created = Created(row: MicDta, crtIds: Option<seq<int>>)

  /** `!Array.isArray(crtIds) || crtIds.length === 0`. */
  predicate NoCrtIds(crtIds: Option<seq<int>>) {
    crtIds.None? || crtIds.value == []
  }

  /** `data.dataCriacao || <today>`. */
  function CreationDate(req: MicDtaRequest, today: string): string {
    if req.dataCriacao != "" then req.dataCriacao else today
  }

  /**
   * The row `create` inserts for the drawn number: the request's own fields
   * (its code as passed in, not the engine's) with the number.
   */
  function RowFor(req: MicDtaRequest, n: NumberRecord, today: string): MicDta {
    MicDta(0, n.numero, req.tipo, req.paisOrigemCodigo, req.paisDestinoCodigo, req.licencaComplementar,
           n.numeroSequencial, req.transportadoraId, CreationDate(req, today))
  }

  // ---------------------------------------------------------------- links

  /** The junction table and the first error after linking `ids` to `micDtaId` one by one. */
  function LinkAll(links: set<(int, int)>, micDtaId: int, ids: seq<int>): (set<(int, int)>, Option<DbError>)
    decreases |ids|
  {
    if ids == [] then (links, None)
    else if (micDtaId, ids[0]) in links then (links, Some(DuplicateLink))
    else LinkAll(links + {(micDtaId, ids[0])}, micDtaId, ids[1..])
  }

  /** The pairs linking `micDtaId` to each of `ids`. */
  function Pairs(micDtaId: int, ids: seq<int>): set<(int, int)> {
    set i | 0 <= i < |ids| :: (micDtaId, ids[i])
  }

  /** No id is linked already and none repeats. */
  predicate FreshDistinctIds(links: set<(int, int)>, micDtaId: int, ids: seq<int>) {
    && (forall i | 0 <= i < |ids| :: (micDtaId, ids[i]) !in links)
    && (forall i, j | 0 <= i < j < |ids| :: ids[i] != ids[j])
  }

  /**
   * Linking succeeds exactly when no id is linked already and none repeats;
   * then every pair is added and nothing else.
   */
  lemma {:induction false} LinkAllSucceedsIff(links: set<(int, int)>, micDtaId: int, ids: seq<int>)
    ensures LinkAll(links, micDtaId, ids).1.None? <==> FreshDistinctIds(links, micDtaId, ids)
    ensures LinkAll(links, micDtaId, ids).1.None? ==>
              LinkAll(links, micDtaId, ids).0 == links + Pairs(micDtaId, ids)
    decreases |ids|
  {
    if ids != [] {
      var links' := links + {(micDtaId, ids[0])};
      LinkAllSucceedsIff(links', micDtaId, ids[1..]);
      if (micDtaId, ids[0]) !in links {
        if FreshDistinctIds(links', micDtaId, ids[1..]) {
          forall i | 0 <= i < |ids| ensures (micDtaId, ids[i]) !in links {
            if i > 0 {
              assert ids[i] == ids[1..][i - 1];
            }
          }
          forall i, j | 0 <= i < j < |ids| ensures ids[i] != ids[j] {
            assert ids[j] == ids[1..][j - 1];
            if i > 0 {
              assert ids[i] == ids[1..][i - 1];
            }
          }
          assert Pairs(micDtaId, ids) == {(micDtaId, ids[0])} + Pairs(micDtaId, ids[1..]) by {
            forall p | p in Pairs(micDtaId, ids) ensures p in {(micDtaId, ids[0])} + Pairs(micDtaId, ids[1..]) {
              var i :| 0 <= i < |ids| && p == (micDtaId, ids[i]);
              if i > 0 {
                assert ids[i] == ids[1..][i - 1];
              }
            }
            forall p | p in Pairs(micDtaId, ids[1..]) ensures p in Pairs(micDtaId, ids) {
              var i :| 0 <= i < |ids[1..]| && p == (micDtaId, ids[1..][i]);
              assert ids[1..][i] == ids[i + 1];
            }
            assert (micDtaId, ids[0]) in Pairs(micDtaId, ids);
          }
        }
        if FreshDistinctIds(links, micDtaId, ids) {
          forall i | 0 <= i < |ids[1..]| ensures (micDtaId, ids[1..][i]) !in links' {
            assert ids[1..][i] == ids[i + 1];
          }
          forall i, j | 0 <= i < j < |ids[1..]| ensures ids[1..][i] != ids[1..][j] {
            assert ids[1..][i] == ids[i + 1] && ids[1..][j] == ids[j + 1];
          }
        }
      }
    }
  }

  /** The loop that links each id in turn; it stops at the first pair already linked. */
  method LinkCrts(mics: MicDtaTable, micDtaId: int, ids: seq<int>) returns (error: Option<DbError>)
    modifies mics`links
    ensures (mics.links, error) == LinkAll(old(mics.links), micDtaId, ids)
  {
    var i := 0;
    while i < |ids|
      invariant 0 <= i <= |ids|
      invariant LinkAll(mics.links, micDtaId, ids[i..]) == LinkAll(old(mics.links), micDtaId, ids)
    {
      assert ids[i..][0] == ids[i];
      ghost var before := mics.links;
      var r := mics.LinkToCrt(micDtaId, ids[i]);
      if r.Failure? {
        assert mics.links == before;
        return Some(r.error);
      }
      assert ids[i..][1..] == ids[i + 1..];
      i := i + 1;
    }
    assert ids[i..] == [];
    return None;
  }

  // ---------------------------------------------------------------- create

  /**
   * The outcome of `create`, from the state before (`counters0`, `rows0`,
   * `nextId0`, `links0`) and after. The kind and the CRT list are checked
   * before any allocation; the number is drawn with quantity 1.
   */
  ghost predicate CreateOutcome(counters0: map<Key, int>, counters1: map<Key, int>,
                                rows0: seq<MicDta>, nextId0: int, links0: set<(int, int)>,
                                rows1: seq<MicDta>, links1: set<(int, int)>,
                                carriers: map<int, Carrier>, licences: seq<Licence>,
                                today: string, req: MicDtaRequest, resp: Response.ApiResponse<Created>)
  {
    if req.tipo == "NORMAL" && NoCrtIds(req.crtIds) then
      resp == Response.Fail(CrtIdsRequired, 400) && counters1 == counters0 && rows1 == rows0 && links1 == links0
    else if req.tipo != "NORMAL" && req.tipo != "LASTRE" then
      resp == Response.Fail(InvalidTipo, 400) && counters1 == counters0 && rows1 == rows0 && links1 == links0
    else
      exists numbers: Result<seq<NumberRecord>, string> ::
        && AllocationOutcome(counters0, counters1, carriers, licences, "MIC-DTA", req.transportadoraId,
                             req.paisOrigemCodigo, req.paisDestinoCodigo, req.licencaComplementar, 1, numbers)
        && AfterAllocation(numbers, rows0, nextId0, links0, rows1, links1, today, req, resp)
  }

  /** What `create` does with the engine's answer. */
  ghost predicate AfterAllocation(numbers: Result<seq<NumberRecord>, string>,
                                  rows0: seq<MicDta>, nextId0: int, links0: set<(int, int)>,
                                  rows1: seq<MicDta>, links1: set<(int, int)>,
                                  today: string, req: MicDtaRequest, resp: Response.ApiResponse<Created>)
  {
    match numbers
    case Failure(msg) =>
      resp == Response.Fail(CreateErrorPrefix + msg, 500) && rows1 == rows0 && links1 == links0
    case Success(records) =>
      if records == [] || records[0].numero == "" || records[0].numeroSequencial == 0 then
        resp == Response.Fail(NumberFailure, 500) && rows1 == rows0 && links1 == links0
      else
        var m := RowFor(req, records[0], today);
        var e := Rejected(rows0, m);
        if e.Some? then
          resp == Response.Fail(CreateErrorPrefix + e.value.message, 500) && rows1 == rows0 && links1 == links0
        else
          var row := m.(id := nextId0);
          && rows1 == rows0 + [row]
          && if req.tipo == "LASTRE" then
               links1 == links0 && resp == Response.Success(Created(row, req.crtIds), Some(LastreCreated))
             else
               var ids := if req.crtIds.Some? then req.crtIds.value else [];
               var (links, error) := LinkAll(links0, row.id, ids);
               && links1 == links
               && resp == (if error.None? then Response.Success(Created(row, req.crtIds), Some(NormalCreated))
                           else Response.Fail(CreateErrorPrefix + error.value.message, 500))
  }

  /** Insert the MIC-DTA for the drawn number and, for a NORMAL one, link its CRTs. */
  method Store(mics: MicDtaTable, records: seq<NumberRecord>, today: string, req: MicDtaRequest)
    returns (resp: Response.ApiResponse<Created>)
    requires mics.Valid()
    requires req.tipo == "LASTRE" || (req.tipo == "NORMAL" && !NoCrtIds(req.crtIds))
    modifies mics
    ensures mics.Valid()
    ensures AfterAllocation(Success(records), old(mics.rows), old(mics.nextId), old(mics.links),
                            mics.rows, mics.links, today, req, resp)
  {
    if records == [] || records[0].numero == "" || records[0].numeroSequencial == 0 {
      return Response.Fail(NumberFailure, 500);
    }
    var inserted := mics.Create(RowFor(req, records[0], today));
    if inserted.Failure? {
      return Response.Fail(CreateErrorPrefix + inserted.error.message, 500);
    }
    if req.tipo == "LASTRE" {
      return Response.Success(Created(inserted.value, req.crtIds), Some(LastreCreated));
    }
    var error := LinkCrts(mics, inserted.value.id, req.crtIds.value);
    if error.Some? {
      return Response.Fail(CreateErrorPrefix + error.value.message, 500);
    }
    return Response.Success(Created(inserted.value, req.crtIds), Some(NormalCreated));
  }

  /** `create(data)`. `today` is the date the clock supplies when the request has none. */
  method Create(seqs: SequenceTable, carriers: CarrierTable, licences: LicenceTable, mics: MicDtaTable,
                today: string, req: MicDtaRequest)
    returns (resp: Response.ApiResponse<Created>)
    requires mics.Valid()
    modifies seqs, mics
    ensures mics.Valid()
    ensures CreateOutcome(old(seqs.counters), seqs.counters, old(mics.rows), old(mics.nextId), old(mics.links),
                          mics.rows, mics.links, carriers.rows, licences.rows, today, req, resp)
  {
    if req.tipo == "NORMAL" && NoCrtIds(req.crtIds) {
      return Response.Fail(CrtIdsRequired, 400);
    }
    if req.tipo != "NORMAL" && req.tipo != "LASTRE" {
      return Response.Fail(InvalidTipo, 400);
    }
    var numbers := GetNextNumbers(seqs, carriers, licences, "MIC-DTA", req.transportadoraId,
                                  req.paisOrigemCodigo, req.paisDestinoCodigo, req.licencaComplementar, 1);
    if numbers.Failure? {
      resp := Response.Fail(CreateErrorPrefix + numbers.error, 500);
    } else {
      resp := Store(mics, numbers.value, today, req);
    }
    assert AfterAllocation(numbers, old(mics.rows), old(mics.nextId), old(mics.links),
                           mics.rows, mics.links, today, req, resp);
  }

  /** A kind other than NORMAL or LASTRE is refused with 400 before any number is drawn. */
  lemma InvalidTipoDrawsNothing(counters0: map<Key, int>, counters1: map<Key, int>,
                                rows0: seq<MicDta>, nextId0: int, links0: set<(int, int)>,
                                rows1: seq<MicDta>, links1: set<(int, int)>,
                                carriers: map<int, Carrier>, licences: seq<Licence>,
                                today: string, req: MicDtaRequest, resp: Response.ApiResponse<Created>)
    requires CreateOutcome(counters0, counters1, rows0, nextId0, links0, rows1, links1, carriers, licences, today, req, resp)
    requires req.tipo != "NORMAL" && req.tipo != "LASTRE"
    ensures resp == Response.Fail(InvalidTipo, 400)
    ensures counters1 == counters0 && rows1 == rows0 && links1 == links0
  {
  }

  /**
   * The "number failure" answer comes only after the counter has moved: the
   * engine's number is never empty, so it means the drawn sequence number was
   * 0, and the counter now holds it.
   */
  lemma NumberFailureAfterAdvance(counters0: map<Key, int>, counters1: map<Key, int>,
                                  rows0: seq<MicDta>, nextId0: int, links0: set<(int, int)>,
                                  rows1: seq<MicDta>, links1: set<(int, int)>,
                                  carriers: map<int, Carrier>, licences: seq<Licence>,
                                  today: string, req: MicDtaRequest, resp: Response.ApiResponse<Created>)
    requires CreateOutcome(counters0, counters1, rows0, nextId0, links0, rows1, links1, carriers, licences, today, req, resp)
    requires resp == Response.Fail(NumberFailure, 500)
    ensures req.transportadoraId in carriers
    ensures LastIssued(counters0, "MIC-DTA", req.transportadoraId, carriers[req.transportadoraId]) + 1 == 0
    ensures counters1 == counters0[("MIC-DTA", req.transportadoraId) := 0]
    ensures rows1 == rows0 && links1 == links0
  {
    var numbers: Result<seq<NumberRecord>, string> :|
      && AllocationOutcome(counters0, counters1, carriers, licences, "MIC-DTA", req.transportadoraId,
                           req.paisOrigemCodigo, req.paisDestinoCodigo, req.licencaComplementar, 1, numbers)
      && AfterAllocation(numbers, rows0, nextId0, links0, rows1, links1, today, req, resp);
    match numbers {
      case Failure(msg) =>
        PrefixedIsNotNumberFailure(msg);
        assert false;
      case Success(records) =>
    }
    AllocatedRecords(counters0, counters1, carriers, licences, "MIC-DTA", req.transportadoraId,
                     req.paisOrigemCodigo, req.paisDestinoCodigo, req.licencaComplementar, 1, numbers);
    var n := numbers.value[0];
    NumeroNeverEmpty(req.paisOrigemCodigo, n.licencaComplementar, n.numeroSequencial);
    if n.numeroSequencial != 0 {
      var m := RowFor(req, n, today);
      match Rejected(rows0, m) {
        case Some(e) =>
          PrefixedIsNotNumberFailure(e.message);
          assert false;
        case None =>
          var ids := if req.crtIds.Some? then req.crtIds.value else [];
          match LinkAll(links0, nextId0, ids).1 {
            case Some(e) =>
              PrefixedIsNotNumberFailure(e.message);
              assert false;
            case None =>
              assert false;
          }
      }
    }
  }

  lemma PrefixedIsNotNumberFailure(msg: string)
    ensures CreateErrorPrefix + msg != NumberFailure
  {
    assert (CreateErrorPrefix + msg)[0] != NumberFailure[0];
  }

  /**
   * A successful NORMAL `create` drew the next number of the carrier's
   * MIC-DTA counter, stored one row with it under the next id, and linked
   * that row to every requested CRT, none of which was linked before or
   * listed twice.
   */
  lemma SuccessfulNormalCreate(counters0: map<Key, int>, counters1: map<Key, int>,
                               rows0: seq<MicDta>, nextId0: int, links0: set<(int, int)>,
                               rows1: seq<MicDta>, links1: set<(int, int)>,
                               carriers: map<int, Carrier>, licences: seq<Licence>,
                               today: string, req: MicDtaRequest, resp: Response.ApiResponse<Created>)
    requires CreateOutcome(counters0, counters1, rows0, nextId0, links0, rows1, links1, carriers, licences, today, req, resp)
    requires resp.success && req.tipo == "NORMAL"
    ensures req.transportadoraId in carriers && req.crtIds.Some?
    ensures var last := LastIssued(counters0, "MIC-DTA", req.transportadoraId, carriers[req.transportadoraId]);
            var row := resp.data.value.row;
            && counters1 == counters0[("MIC-DTA", req.transportadoraId) := last + 1]
            && row.numeroSequencial == last + 1 && row.id == nextId0
            && rows1 == rows0 + [row]
            && FreshDistinctIds(links0, row.id, req.crtIds.value)
            && links1 == links0 + Pairs(row.id, req.crtIds.value)
    ensures resp.message == NormalCreated && resp.data.value.crtIds == req.crtIds
  {
    var numbers: Result<seq<NumberRecord>, string> :|
      && AllocationOutcome(counters0, counters1, carriers, licences, "MIC-DTA", req.transportadoraId,
                           req.paisOrigemCodigo, req.paisDestinoCodigo, req.licencaComplementar, 1, numbers)
      && AfterAllocation(numbers, rows0, nextId0, links0, rows1, links1, today, req, resp);
    AllocatedRecords(counters0, counters1, carriers, licences, "MIC-DTA", req.transportadoraId,
                     req.paisOrigemCodigo, req.paisDestinoCodigo, req.licencaComplementar, 1, numbers);
    LinkAllSucceedsIff(links0, nextId0, req.crtIds.value);
  }

  // ---------------------------------------------------------------- addCrtsToMicDta

  /** `addCrtsToMicDta(micDtaId, crtIds)`. */
  method AddCrtsToMicDta(mics: MicDtaTable, micDtaId: int, crtIds: Option<seq<int>>)
    returns (resp: Response.ApiResponse<(int, seq<int>)>)
    modifies mics`links
    ensures NoCrtIds(crtIds) ==> resp == Response.Fail(CrtIdsArrayRequired, 400) && mics.links == old(mics.links)
    ensures !NoCrtIds(crtIds) ==>
              var (links, error) := LinkAll(old(mics.links), micDtaId, crtIds.value);
              && mics.links == links
              && resp == (if error.None? then Response.Success((micDtaId, crtIds.value), Some(Linked))
                          else Response.Fail(LinkErrorPrefix + error.value.message, 500))
  {
    if NoCrtIds(crtIds) {
      return Response.Fail(CrtIdsArrayRequired, 400);
    }
    var error := LinkCrts(mics, micDtaId, crtIds.value);
    if error.Some? {
      return Response.Fail(LinkErrorPrefix + error.value.message, 500);
    }
    return Response.Success((micDtaId, crtIds.value), Some(Linked));
  }
}
