/**
 * The document-number engine (`DocumentNumberService`): licence resolution
 * for a route, derivation of the complementary code, and allocation of
 * consecutive sequence numbers rendered as `origin ++ code ++ pad5(n)`.
 *
 * A request field that is missing (undefined) is the empty string here: it
 * equals no stored value, is bound as SQL NULL and renders as "undefined" in
 * a template literal.
 */
module DocumentNumbers {
  import opened Wrappers
  import opened JsText
  import opened JsArray
  import opened LicenceCode
  import opened Carriers
  import opened DestinationLicenses
  import opened Sequences

  const SameCountryError: string := "País de origem e destino não podem ser iguais na emissão de CRT/MIC-DTA."
  const CarrierNotFound: string := "Transportadora não encontrada"
  /** What reading `.pais` of an undefined carrier throws. */
  const CarrierTypeError: string := "Cannot read properties of undefined (reading 'pais')"

  /** A request string in a template literal. */
  function Render(s: string): string {
    if s == "" then "undefined" else s
  }

  const NoLicencePrefix: string := "Transportadora não possui licença que vincule os países "

  function NoLicenceError(origin: string, dest: string): string {
    NoLicencePrefix + Render(origin) + " e " + Render(dest)
  }

  /** `stored === arg` for a stored (non-null) string and a request argument. */
  predicate Is(stored: string, arg: string) {
    arg != "" && stored == arg
  }

  /** `validateCountryCode(code)`: `COUNTRIES` has the code as a key. */
  predicate ValidateCountryCode(code: string, countries: set<string>) {
    code != "" && code in countries
  }

  // ---------------------------------------------------------------- licence resolution

  /** A licence as the lookups return it: a stored row, or one made up from the carrier. */
  datatype FoundLicence =
    | Stored(row: Licence)
    | Synthetic(licenca: string, idoneidade: Option<string>, paisDestino: string)

  /** The licence made up from the carrier's own registration. */
  function SyntheticLicence(c: Carrier): (r: FoundLicence)
    ensures r.Synthetic? && r.licenca == c.numeroRegistro && r.paisDestino == c.pais
    ensures r.idoneidade.None? <==> c.pais == "BR"
    ensures r.idoneidade.Some? ==> r.idoneidade.value == c.numeroRegistro
  {
    Synthetic(c.numeroRegistro, if c.pais != "BR" then Some(c.numeroRegistro) else None, c.pais)
  }

  function DestinationIs(pais: string): Licence -> bool {
    (l: Licence) => Is(l.paisDestino, pais)
  }

  predicate HasDestination(own: seq<Licence>, pais: string) {
    exists i | 0 <= i < |own| :: Is(own[i].paisDestino, pais)
  }

  /**
   * `getLicenseForAnyDirection(id, paisA, paisB)`: the carrier's first licence
   * for A, else its first for B; failing both, a synthetic licence when the
   * carrier's own country is A or B. Without a carrier and without a licence,
   * reading the carrier's country throws.
   */
  function GetLicenseForAnyDirection(carriers: map<int, Carrier>, rows: seq<Licence>, id: int,
                                     paisA: string, paisB: string): (r: Result<Option<FoundLicence>, string>)
    ensures HasDestination(RowsOf(rows, id), paisA) ==>
              r.Success? && r.value.Some? && r.value.value.Stored?
              && r.value.value.row in RowsOf(rows, id) && Is(r.value.value.row.paisDestino, paisA)
    ensures r.Success? && r.value.Some? && r.value.value.Stored? ==>
              r.value.value.row in RowsOf(rows, id)
              && (Is(r.value.value.row.paisDestino, paisA) || Is(r.value.value.row.paisDestino, paisB))
    ensures r.Success? && r.value.Some? && r.value.value.Synthetic? ==>
              && id in carriers
              && !HasDestination(RowsOf(rows, id), paisA) && !HasDestination(RowsOf(rows, id), paisB)
              && (Is(carriers[id].pais, paisA) || Is(carriers[id].pais, paisB))
              && r.value.value == SyntheticLicence(carriers[id])
    ensures r.Failure? <==>
              id !in carriers && !HasDestination(RowsOf(rows, id), paisA) && !HasDestination(RowsOf(rows, id), paisB)
    ensures r.Success? && r.value.None? <==>
              && id in carriers
              && !HasDestination(RowsOf(rows, id), paisA) && !HasDestination(RowsOf(rows, id), paisB)
              && !Is(carriers[id].pais, paisA) && !Is(carriers[id].pais, paisB)
  {
    var own := RowsOf(rows, id);
    var byA := Find(own, DestinationIs(paisA));
    var license := if byA.Some? then byA else Find(own, DestinationIs(paisB));
    if license.Some? then Success(Some(Stored(license.value)))
    else if id !in carriers then Failure(CarrierTypeError)
    else if Is(carriers[id].pais, paisA) || Is(carriers[id].pais, paisB) then Success(Some(SyntheticLicence(carriers[id])))
    else Success(None)
  }

  /**
   * `getLicenseForAnyDirectionCRT(id, origin, dest)`: the same lookup with a
   * third fallback, for a destination equal to the carrier's country. That
   * case is already covered by the second, so the result is always the one
   * of `getLicenseForAnyDirection`.
   */
  function GetLicenseForAnyDirectionCRT(carriers: map<int, Carrier>, rows: seq<Licence>, id: int,
                                        origin: string, dest: string): (r: Result<Option<FoundLicence>, string>)
    ensures r == GetLicenseForAnyDirection(carriers, rows, id, origin, dest)
  {
    var own := RowsOf(rows, id);
    var byOrigin := Find(own, DestinationIs(origin));
    var license := if byOrigin.Some? then byOrigin else Find(own, DestinationIs(dest));
    if license.Some? then Success(Some(Stored(license.value)))
    else if id !in carriers then Failure(CarrierTypeError)
    else
      var c := carriers[id];
      if Is(c.pais, origin) || Is(c.pais, dest) then Success(Some(SyntheticLicence(c)))
      else if Is(c.pais, dest) then Success(Some(SyntheticLicence(c)))
      else Success(None)
  }

  /** The first search of `getLicenseBetweenCountries`: a licence bound to the pair in either sense. */
  function LinksCountries(paisA: string, paisB: string): Licence -> bool {
    (dl: Licence) =>
      (Is(dl.paisDestino, paisA) && ((paisB != "" && dl.paisOrigem == Some(paisB)) || !Truthy(dl.paisOrigem)))
      || (Is(dl.paisDestino, paisB) && ((paisA != "" && dl.paisOrigem == Some(paisA)) || !Truthy(dl.paisOrigem)))
  }

  /** The second search: any licence for either country. */
  function ForEither(paisA: string, paisB: string): Licence -> bool {
    (dl: Licence) => Is(dl.paisDestino, paisA) || Is(dl.paisDestino, paisB)
  }

  /** `getLicenseBetweenCountries(id, paisA, paisB)`. */
  function GetLicenseBetweenCountries(rows: seq<Licence>, id: int, paisA: string, paisB: string): (r: Option<Licence>)
    ensures r.Some? ==> r.value in RowsOf(rows, id) && (Is(r.value.paisDestino, paisA) || Is(r.value.paisDestino, paisB))
    ensures r.None? <==> !HasDestination(RowsOf(rows, id), paisA) && !HasDestination(RowsOf(rows, id), paisB)
  {
    var own := RowsOf(rows, id);
    var linked := Find(own, LinksCountries(paisA, paisB));
    if linked.Some? then linked else Find(own, ForEither(paisA, paisB))
  }

  /**
   * Rows read from the table never carry an origin, so the first search
   * accepts exactly what the second does: the lookup is the first licence of
   * the carrier for either country.
   */
  lemma BetweenCountriesIgnoresOrigin(rows: seq<Licence>, id: int, paisA: string, paisB: string)
    requires forall i | 0 <= i < |rows| :: rows[i].paisOrigem.None?
    ensures GetLicenseBetweenCountries(rows, id, paisA, paisB) == Find(RowsOf(rows, id), ForEither(paisA, paisB))
  {
    var own := RowsOf(rows, id);
    forall x | x in own ensures LinksCountries(paisA, paisB)(x) == ForEither(paisA, paisB)(x) {
      var i :| 0 <= i < |rows| && rows[i].transportadoraId == id && x == FormatRow(rows[i]);
    }
    FindAgrees(own, LinksCountries(paisA, paisB), ForEither(paisA, paisB));
  }

  // ---------------------------------------------------------------- complementary code

  /**
   * The complementary code of a number: for a BR carrier the four digits after
   * the licence's leading capitals, or the code passed in when there are none;
   * for any other carrier `idoneidade || licenca`.
   */
  function ComplementaryCode(carrierPais: string, l: Licence, passed: Option<string>): Option<string> {
    if carrierPais == "BR" then
      var m := LicenceDigits(l.licenca);
      if m.Some? then m else passed
    else if Truthy(l.idoneidade) then l.idoneidade
    else Some(l.licenca)
  }

  /**
   * A BR carrier's code is what the licence pattern captures, or the code
   * passed in when the licence does not match; any other carrier's code is its
   * non-empty `idoneidade`, else its `licenca`.
   */
  lemma ComplementaryCodeSpec(carrierPais: string, l: Licence, passed: Option<string>)
    ensures var r := ComplementaryCode(carrierPais, l, passed);
            && (carrierPais == "BR" && MatchesBrazilianPattern(l.licenca) ==>
                  r.Some? && |r.value| == 4 && AllDigits(r.value)
                  && exists k: nat :: RegexMatchAt(l.licenca, k) && r.value == l.licenca[k..k + 4])
            && (carrierPais == "BR" && !MatchesBrazilianPattern(l.licenca) ==> r == passed)
            && (carrierPais != "BR" && Truthy(l.idoneidade) ==> r == l.idoneidade)
            && (carrierPais != "BR" && !Truthy(l.idoneidade) ==> r == Some(l.licenca))
  {
    LicenceDigitsMatchesRegex(l.licenca);
  }

  lemma BrazilianCodeExample(l: Licence, passed: Option<string>)
    requires l.licenca == "BR6023/1800648"
    ensures ComplementaryCode("BR", l, passed) == Some("6023")
  {
    BrazilianLicenceExample();
  }

  lemma UnmatchedBrazilianCodeKeepsPassed(l: Licence, passed: Option<string>)
    requires l.licenca == "BR123"
    ensures ComplementaryCode("BR", l, passed) == passed
  {
    ShortLicenceExample();
  }

  // ---------------------------------------------------------------- formatting

  /** A complementary code in a template literal: null prints "null". */
  function RenderComp(comp: Option<string>): string {
    if comp.Some? then comp.value else "null"
  }

  /** `String(n).padStart(5, '0')`. */
  function FormatSequence(n: int): string {
    PadStart(IntToString(n), 5, '0')
  }

  /** The part of a number before its sequence digits. */
  function Prefix(origin: string, comp: Option<string>): string {
    Render(origin) + RenderComp(comp)
  }

  /** `${paisOrigemCodigo}${licencaComp}${numeroFormatado}`. */
  function FormatNumber(origin: string, comp: Option<string>, n: int): string {
    Prefix(origin, comp) + FormatSequence(n)
  }

  /**
   * The sequence part of a number is the decimal digits of `n` with zeros
   * prepended up to five characters, never cut, and reads back as `n`.
   */
  lemma SequenceLayout(n: nat)
    ensures |FormatSequence(n)| == if |NatToString(n)| >= 5 then |NatToString(n)| else 5
    ensures FormatSequence(n)[|FormatSequence(n)| - |NatToString(n)|..] == NatToString(n)
    ensures AllDigits(FormatSequence(n)) && ParseDigits(FormatSequence(n)) == n
  {
    assert IntToString(n) == NatToString(n);
    PadStartSpec(NatToString(n), 5, '0');
    PaddedRoundTrip(n, 5);
  }

  /** A number always has at least the five characters of its padded sequence part. */
  lemma NumeroNeverEmpty(origin: string, comp: Option<string>, n: int)
    ensures |FormatNumber(origin, comp, n)| >= 5
  {
    PadStartSpec(IntToString(n), 5, '0');
  }

  /** A number splits into its prefix and its sequence part. */
  lemma NumeroLayout(origin: string, comp: Option<string>, n: int)
    ensures FormatNumber(origin, comp, n)[..|Prefix(origin, comp)|] == Prefix(origin, comp)
    ensures FormatNumber(origin, comp, n)[|Prefix(origin, comp)|..] == FormatSequence(n)
  {
    var prefix, digits := Prefix(origin, comp), FormatSequence(n);
    assert (prefix + digits)[..|prefix|] == prefix;
    assert (prefix + digits)[|prefix|..] == digits;
  }

  /** For one origin and code, the number determines the sequence number. */
  lemma FormatNumberInjective(origin: string, comp: Option<string>, m: int, n: int)
    requires FormatNumber(origin, comp, m) == FormatNumber(origin, comp, n)
    ensures m == n
  {
    NumeroLayout(origin, comp, m);
    NumeroLayout(origin, comp, n);
    PaddedIntInjective(m, n, 5);
  }

  lemma FormatNumberExample()
    ensures FormatNumber("BR", Some("6023"), 1) == "BR602300001"
  {
    assert IntToString(1) == "1";
    assert Repeat('0', 4) == "0000";
  }

  /** A negative sequence number keeps its sign inside the padding. */
  lemma NegativeSequenceExample()
    ensures FormatSequence(-5) == "000-5"
  {
    assert IntToString(-5) == "-5";
    assert Repeat('0', 3) == "000";
  }

  // ---------------------------------------------------------------- allocation

  /** One entry of the array `getNextNumbers` resolves with. */
  datatype NumberRecord = NumberRecord(
    numero: string,
    paisOrigemCodigo: string,
    paisDestinoCodigo: Option<string>,
    licencaComplementar: Option<string>,
    numeroSequencial: int)

  function MakeRecord(origin: string, dest: string, comp: Option<string>, n: int): NumberRecord {
    NumberRecord(FormatNumber(origin, comp, n), origin, if dest == "" then None else Some(dest), comp, n)
  }

  /** The records for the `q` numbers after `last`. */
  function Batch(origin: string, dest: string, comp: Option<string>, last: int, q: nat): (r: seq<NumberRecord>)
    ensures |r| == q
    ensures forall i | 0 <= i < q :: r[i] == MakeRecord(origin, dest, comp, last + i + 1)
  {
    if q == 0 then []
    else
      var init := Batch(origin, dest, comp, last, q - 1);
      var r := init + [MakeRecord(origin, dest, comp, last + q)];
      assert forall i | 0 <= i < q - 1 :: r[i] == init[i];
      r
  }

  /** Two runs taken one after the other form the run of their combined length. */
  lemma BatchesAdjacent(origin: string, dest: string, comp: Option<string>, last: int, q1: nat, q2: nat)
    ensures Batch(origin, dest, comp, last, q1) + Batch(origin, dest, comp, last + q1, q2)
            == Batch(origin, dest, comp, last, q1 + q2)
  {
  }


  lemma DistinctSequenceDistinctNumero(origin: string, comp: Option<string>, m: int, n: int)
    requires m != n
    ensures FormatNumber(origin, comp, m) != FormatNumber(origin, comp, n)
  {
    if FormatNumber(origin, comp, m) == FormatNumber(origin, comp, n) {
      FormatNumberInjective(origin, comp, m, n);
    }
  }

  /** No two records of a run share a number. */
  lemma BatchNumerosDistinct(origin: string, dest: string, comp: Option<string>, last: int, q: nat)
    ensures var r := Batch(origin, dest, comp, last, q);
            forall i, j | 0 <= i < j < q :: r[i].numero != r[j].numero
  {
    var r := Batch(origin, dest, comp, last, q);
    forall i | 0 <= i < q ensures r[i].numero == FormatNumber(origin, comp, last + i + 1) {
    }
    RunNumerosDistinct(r, origin, comp, last);
  }

  /** Numbers formatted from consecutive sequence numbers under one origin and code are distinct. */
  lemma RunNumerosDistinct(r: seq<NumberRecord>, origin: string, comp: Option<string>, last: int)
    requires forall i | 0 <= i < |r| :: r[i].numero == FormatNumber(origin, comp, last + i + 1)
    ensures forall i, j | 0 <= i < j < |r| :: r[i].numero != r[j].numero
  {
    var number := (n: int) => FormatNumber(origin, comp, n);
    forall m, n | number(m) == number(n) ensures m == n {
      FormatNumberInjective(origin, comp, m, n);
    }
    InjectiveRunDistinct(r, number, last);
  }

  /** Records numbered by an injective numbering of consecutive sequence numbers have distinct numbers. */
  lemma InjectiveRunDistinct(r: seq<NumberRecord>, number: int -> string, last: int)
    requires forall m, n :: number(m) == number(n) ==> m == n
    requires forall i | 0 <= i < |r| :: r[i].numero == number(last + i + 1)
    ensures forall i, j | 0 <= i < j < |r| :: r[i].numero != r[j].numero
  {
  }

  /** Field by field, the records of a run. */
  lemma BatchRecords(origin: string, dest: string, comp: Option<string>, last: int, q: nat)
    ensures var r := Batch(origin, dest, comp, last, q);
            && (forall i | 0 <= i < q ::
                  && r[i].numeroSequencial == last + i + 1
                  && r[i].paisOrigemCodigo == origin
                  && r[i].paisDestinoCodigo == (if dest == "" then None else Some(dest))
                  && r[i].licencaComplementar == comp
                  && r[i].numero == FormatNumber(origin, comp, last + i + 1))
            && (forall i, j | 0 <= i < j < q :: r[i].numero != r[j].numero)
  {
    BatchNumerosDistinct(origin, dest, comp, last, q);
  }

  /** The counter seed: the carrier's starting offset for the kind, minus one. */
  function Seed(c: Carrier, tipo: string): int {
    if tipo == "CRT" then OffsetValue(c.numeroInicialCRT) - 1 else OffsetValue(c.numeroInicialMicDta) - 1
  }

  /** The last number issued for the key, or the seed when none was. */
  function LastIssued(counters: map<Key, int>, tipo: string, id: int, c: Carrier): int {
    if (tipo, id) in counters then counters[(tipo, id)] else Seed(c, tipo)
  }

  predicate HasLicenceFor(rows: seq<Licence>, id: int, origin: string, dest: string) {
    exists l | l in rows :: ForCountries(l, id, origin, dest)
  }

  /**
   * The outcome of `getNextNumbers`, from the counters before (`counters0`)
   * and after (`counters1`). The checks run in order; a failed check leaves
   * the counters alone. On success some licence of the carrier for the origin
   * or the destination gives the code, the numbers are the `q` after the last
   * one issued, and the counter ends at the last of them.
   */
  ghost predicate AllocationOutcome(counters0: map<Key, int>, counters1: map<Key, int>,
                                    carriers: map<int, Carrier>, rows: seq<Licence>,
                                    tipo: string, id: int, origin: string, dest: string,
                                    passed: Option<string>, q: nat,
                                    r: Result<seq<NumberRecord>, string>)
  {
    if origin == dest then r == Failure(SameCountryError) && counters1 == counters0
    else if id !in carriers then r == Failure(CarrierNotFound) && counters1 == counters0
    else if !HasLicenceFor(rows, id, origin, dest) then r == Failure(NoLicenceError(origin, dest)) && counters1 == counters0
    else
      var last := LastIssued(counters0, tipo, id, carriers[id]);
      exists l | l in rows && ForCountries(l, id, origin, dest) ::
        && r == Success(Batch(origin, dest, ComplementaryCode(carriers[id].pais, l, passed), last, q))
        && counters1 == counters0[(tipo, id) := last + q]
  }

  /** The success branch of the outcome, from a witness licence. */
  lemma AllocationSucceeds(counters0: map<Key, int>, counters1: map<Key, int>,
                           carriers: map<int, Carrier>, rows: seq<Licence>,
                           tipo: string, id: int, origin: string, dest: string,
                           passed: Option<string>, q: nat, r: Result<seq<NumberRecord>, string>, l: Licence)
    requires origin != dest && id in carriers
    requires l in rows && ForCountries(l, id, origin, dest)
    requires r == Success(Batch(origin, dest, ComplementaryCode(carriers[id].pais, l, passed),
                                LastIssued(counters0, tipo, id, carriers[id]), q))
    requires counters1 == counters0[(tipo, id) := LastIssued(counters0, tipo, id, carriers[id]) + q]
    ensures AllocationOutcome(counters0, counters1, carriers, rows, tipo, id, origin, dest, passed, q, r)
  {
  }

  /** A failed allocation leaves every counter as it was. */
  lemma FailedAllocationKeepsCounters(counters0: map<Key, int>, counters1: map<Key, int>,
                                      carriers: map<int, Carrier>, rows: seq<Licence>,
                                      tipo: string, id: int, origin: string, dest: string,
                                      passed: Option<string>, q: nat, r: Result<seq<NumberRecord>, string>)
    requires AllocationOutcome(counters0, counters1, carriers, rows, tipo, id, origin, dest, passed, q, r)
    requires r.Failure?
    ensures counters1 == counters0
  {
  }

  /**
   * A successful allocation passed every check, and some licence of the
   * carrier for the origin or the destination gave the code of its run.
   */
  lemma SuccessfulAllocation(counters0: map<Key, int>, counters1: map<Key, int>,
                             carriers: map<int, Carrier>, rows: seq<Licence>,
                             tipo: string, id: int, origin: string, dest: string,
                             passed: Option<string>, q: nat, r: Result<seq<NumberRecord>, string>)
    returns (l: Licence)
    requires AllocationOutcome(counters0, counters1, carriers, rows, tipo, id, origin, dest, passed, q, r)
    requires r.Success?
    ensures origin != dest && id in carriers && l in rows && ForCountries(l, id, origin, dest)
    ensures r.value == Batch(origin, dest, ComplementaryCode(carriers[id].pais, l, passed),
                             LastIssued(counters0, tipo, id, carriers[id]), q)
    ensures counters1 == counters0[(tipo, id) := LastIssued(counters0, tipo, id, carriers[id]) + q]
  {
    SuccessfulAllocationPassedChecks(counters0, counters1, carriers, rows, tipo, id, origin, dest, passed, q, r);
    l :| l in rows && ForCountries(l, id, origin, dest)
         && r.value == Batch(origin, dest, ComplementaryCode(carriers[id].pais, l, passed),
                             LastIssued(counters0, tipo, id, carriers[id]), q)
         && counters1 == counters0[(tipo, id) := LastIssued(counters0, tipo, id, carriers[id]) + q];
  }

  /** Only the last branch of the outcome succeeds. */
  lemma SuccessfulAllocationPassedChecks(counters0: map<Key, int>, counters1: map<Key, int>,
                                         carriers: map<int, Carrier>, rows: seq<Licence>,
                                         tipo: string, id: int, origin: string, dest: string,
                                         passed: Option<string>, q: nat, r: Result<seq<NumberRecord>, string>)
    requires AllocationOutcome(counters0, counters1, carriers, rows, tipo, id, origin, dest, passed, q, r)
    requires r.Success?
    ensures origin != dest && id in carriers && HasLicenceFor(rows, id, origin, dest)
  {
  }

  /**
   * A successful allocation returns `q` records numbered `last+1 .. last+q`,
   * all with the request's origin and destination (null when missing) and one
   * code, each `numero` built from them, no two alike; the counter ends at the
   * last number returned.
   */
  lemma AllocatedRecords(counters0: map<Key, int>, counters1: map<Key, int>,
                         carriers: map<int, Carrier>, rows: seq<Licence>,
                         tipo: string, id: int, origin: string, dest: string,
                         passed: Option<string>, q: nat, r: Result<seq<NumberRecord>, string>)
    requires AllocationOutcome(counters0, counters1, carriers, rows, tipo, id, origin, dest, passed, q, r)
    requires r.Success? && q >= 1
    ensures id in carriers && |r.value| == q
    ensures forall i | 0 <= i < q ::
              && r.value[i].numeroSequencial == LastIssued(counters0, tipo, id, carriers[id]) + i + 1
              && r.value[i].paisOrigemCodigo == origin
              && r.value[i].paisDestinoCodigo == (if dest == "" then None else Some(dest))
              && r.value[i].licencaComplementar == r.value[0].licencaComplementar
              && r.value[i].numero == FormatNumber(origin, r.value[0].licencaComplementar, r.value[i].numeroSequencial)
    ensures forall i, j | 0 <= i < j < q :: r.value[i].numero != r.value[j].numero
    ensures counters1 == counters0[(tipo, id) := r.value[q - 1].numeroSequencial]
  {
    var l := SuccessfulAllocation(counters0, counters1, carriers, rows, tipo, id, origin, dest, passed, q, r);
    BatchRecords(origin, dest, ComplementaryCode(carriers[id].pais, l, passed),
                 LastIssued(counters0, tipo, id, carriers[id]), q);
  }

  /**
   * Two successful allocations on one key, one after the other, return
   * adjacent runs: the second starts right after the first ends.
   */
  lemma SuccessiveAllocationsAdjacent(counters0: map<Key, int>, counters1: map<Key, int>, counters2: map<Key, int>,
                                      carriers: map<int, Carrier>, rows: seq<Licence>,
                                      tipo: string, id: int,
                                      origin1: string, dest1: string, passed1: Option<string>, q1: nat,
                                      r1: Result<seq<NumberRecord>, string>,
                                      origin2: string, dest2: string, passed2: Option<string>, q2: nat,
                                      r2: Result<seq<NumberRecord>, string>)
    requires AllocationOutcome(counters0, counters1, carriers, rows, tipo, id, origin1, dest1, passed1, q1, r1)
    requires AllocationOutcome(counters1, counters2, carriers, rows, tipo, id, origin2, dest2, passed2, q2, r2)
    requires r1.Success? && r2.Success? && q1 >= 1 && q2 >= 1
    ensures r2.value[0].numeroSequencial == r1.value[q1 - 1].numeroSequencial + 1
    ensures forall i, j | 0 <= i < q1 && 0 <= j < q2 :: r1.value[i].numeroSequencial < r2.value[j].numeroSequencial
    ensures counters2[(tipo, id)] == r2.value[q2 - 1].numeroSequencial
  {
    AllocatedRecords(counters0, counters1, carriers, rows, tipo, id, origin1, dest1, passed1, q1, r1);
    AllocatedRecords(counters1, counters2, carriers, rows, tipo, id, origin2, dest2, passed2, q2, r2);
  }

  /**
   * A carrier with starting offset 1 and no counter yet gets 1, 2, 3 for a
   * first CRT request of three and 4, 5 for a second request of two.
   */
  lemma FreshCarrierExample(counters0: map<Key, int>, counters1: map<Key, int>, counters2: map<Key, int>,
                            carriers: map<int, Carrier>, rows: seq<Licence>, id: int,
                            origin: string, dest: string, passed: Option<string>,
                            r1: Result<seq<NumberRecord>, string>, r2: Result<seq<NumberRecord>, string>)
    requires id in carriers && carriers[id].numeroInicialCRT == Some(1) && ("CRT", id) !in counters0
    requires AllocationOutcome(counters0, counters1, carriers, rows, "CRT", id, origin, dest, passed, 3, r1)
    requires AllocationOutcome(counters1, counters2, carriers, rows, "CRT", id, origin, dest, passed, 2, r2)
    requires r1.Success? && r2.Success?
    ensures |r1.value| == 3 && |r2.value| == 2
    ensures r1.value[0].numeroSequencial == 1 && r1.value[1].numeroSequencial == 2 && r1.value[2].numeroSequencial == 3
    ensures r2.value[0].numeroSequencial == 4 && r2.value[1].numeroSequencial == 5
  {
    assert LastIssued(counters0, "CRT", id, carriers[id]) == 0;
    AllocatedRecords(counters0, counters1, carriers, rows, "CRT", id, origin, dest, passed, 3, r1);
    AllocatedRecords(counters1, counters2, carriers, rows, "CRT", id, origin, dest, passed, 2, r2);
  }

  /**
   * The counter part of `getNextNumbers`: start from the stored last number
   * (or the seed), format the next `quantidade` numbers one by one, and
   * store the last of them.
   */
  method TakeNumbers(seqs: SequenceTable, key: Key, seed: int,
                     origin: string, dest: string, comp: Option<string>, quantidade: nat)
    returns (numeros: seq<NumberRecord>)
    modifies seqs
    ensures var last := if key in old(seqs.counters) then old(seqs.counters)[key] else seed;
            && numeros == Batch(origin, dest, comp, last, quantidade)
            && seqs.counters == old(seqs.counters)[key := last + quantidade]
  {
    var ultimo := if key in seqs.counters then seqs.counters[key] else seed;
    ghost var last := ultimo;
    numeros := [];
    var i := 1;
    while i <= quantidade
      invariant 1 <= i <= quantidade + 1
      invariant ultimo == last + i - 1
      invariant numeros == Batch(origin, dest, comp, last, i - 1)
      invariant seqs.counters == old(seqs.counters)
    {
      ultimo := ultimo + 1;
      numeros := numeros + [MakeRecord(origin, dest, comp, ultimo)];
      i := i + 1;
    }
    seqs.Upsert(key, ultimo);
  }

  /**
   * `getNextNumbers(tipo, id, origin, dest, licencaComplementar, quantidade)`:
   * check the route, the carrier and its licence, derive the code, then take
   * `quantidade` numbers from the (tipo, carrier) counter and store the last.
   */
  method GetNextNumbers(seqs: SequenceTable, carriers: CarrierTable, licences: LicenceTable,
                        tipo: string, transportadoraId: int, paisOrigemCodigo: string, paisDestinoCodigo: string,
                        licencaComplementar: Option<string>, quantidade: int)
    returns (r: Result<seq<NumberRecord>, string>)
    requires 1 <= quantidade <= 100
    modifies seqs
    ensures AllocationOutcome(old(seqs.counters), seqs.counters, carriers.rows, licences.rows, tipo, transportadoraId,
                              paisOrigemCodigo, paisDestinoCodigo, licencaComplementar, quantidade, r)
    ensures r.Success? <==>
              paisOrigemCodigo != paisDestinoCodigo && transportadoraId in carriers.rows
              && HasLicenceFor(licences.rows, transportadoraId, paisOrigemCodigo, paisDestinoCodigo)
  {
    if paisOrigemCodigo == paisDestinoCodigo {
      return Failure(SameCountryError);
    }
    var carrier := carriers.FindById(transportadoraId);
    if carrier.None? {
      return Failure(CarrierNotFound);
    }
    var licence := licences.FindLicenseForCountries(transportadoraId, paisOrigemCodigo, paisDestinoCodigo);
    if licence.None? {
      return Failure(NoLicenceError(paisOrigemCodigo, paisDestinoCodigo));
    }
    var comp := ComplementaryCode(carrier.value.pais, licence.value, licencaComplementar);
    var numeros := TakeNumbers(seqs, (tipo, transportadoraId), Seed(carrier.value, tipo),
                               paisOrigemCodigo, paisDestinoCodigo, comp, quantidade);
    r := Success(numeros);
    AllocationSucceeds(old(seqs.counters), seqs.counters, carriers.rows, licences.rows, tipo, transportadoraId,
                       paisOrigemCodigo, paisDestinoCodigo, licencaComplementar, quantidade, r, licence.value);
  }

  /** `getNextNumbersForLastre(id, origin, dest, quantidade)`: a MIC-DTA allocation with no code passed in. */
  method GetNextNumbersForLastre(seqs: SequenceTable, carriers: CarrierTable, licences: LicenceTable,
                                 transportadoraId: int, paisOrigemCodigo: string, paisDestinoCodigo: string,
                                 quantidade: int)
    returns (r: Result<seq<NumberRecord>, string>)
    requires 1 <= quantidade <= 100
    modifies seqs
    ensures AllocationOutcome(old(seqs.counters), seqs.counters, carriers.rows, licences.rows, "MIC-DTA", transportadoraId,
                              paisOrigemCodigo, paisDestinoCodigo, None, quantidade, r)
  {
    r := GetNextNumbers(seqs, carriers, licences, "MIC-DTA", transportadoraId, paisOrigemCodigo, paisDestinoCodigo,
                        None, quantidade);
  }
}
