/**
 * The `destination_licenses` table and its model: one row per (carrier,
 * destination country) with the licence code, the optional idoneidade
 * (foreign authorisation) code and the expiry date, stored as DD/MM/YYYY.
 */
module DestinationLicenses {
  import opened Wrappers
  import opened JsText
  import opened JsArray
  import opened Sqlite

  /**
   * A licence row. The table has no `paisOrigem` column, so rows read from it
   * carry `paisOrigem == None`; the field exists because
   * `getLicenseBetweenCountries` reads `dl.paisOrigem`.
   */
  datatype Licence = Licence(
    transportadoraId: int,
    paisDestino: string,
    licenca: string,
    idoneidade: Option<string>,
    vencimentoLicenca: Option<string>,
    paisOrigem: Option<string>)

  /** The UNIQUE(transportadoraId, paisDestino) key. */
  function Key(l: Licence): (int, string) {
    (l.transportadoraId, l.paisDestino)
  }

  ghost predicate UniqueKeys(rows: seq<Licence>) {
    forall i, j | 0 <= i < j < |rows| :: Key(rows[i]) != Key(rows[j])
  }

  predicate HasKey(rows: seq<Licence>, id: int, paisDestino: string) {
    exists i | 0 <= i < |rows| :: Key(rows[i]) == (id, paisDestino)
  }

  // ---------------------------------------------------------------- dates

  /** `/^\d{4}-\d{2}-\d{2}$/.test(s)`. */
  predicate IsIsoDate(s: string) {
    |s| == 10 && AllDigits(s[..4]) && s[4] == '-' && AllDigits(s[5..7]) && s[7] == '-' && AllDigits(s[8..])
  }

  /** DD/MM/YYYY, the shape `formatDateToBR` writes. */
  predicate IsBrDate(s: string) {
    |s| == 10 && AllDigits(s[..2]) && s[2] == '/' && AllDigits(s[3..5]) && s[5] == '/' && AllDigits(s[6..])
  }

  /**
   * The license service's reading of a DD/MM/YYYY date: split on '/' and
   * rebuild `${y}-${m}-${d}`.
   */
  function IsoFromBr(s: string): string
    requires IsBrDate(s)
  {
    s[6..] + "-" + s[3..5] + "-" + s[..2]
  }

  /**
   * `formatDateToBR(dateStr)`: null for a falsy argument; YYYY-MM-DD becomes
   * DD/MM/YYYY built from the same three components; anything else is
   * returned as it is.
   */
  function FormatDateToBR(date: Option<string>): (r: Option<string>)
    ensures r.None? <==> !Truthy(date)
    ensures Truthy(date) && !IsIsoDate(date.value) ==> r == date
    ensures Truthy(date) && IsIsoDate(date.value) ==>
              IsBrDate(r.value) && IsoFromBr(r.value) == date.value
  {
    if !Truthy(date) then None
    else if IsIsoDate(date.value) then
      var s := date.value;
      assert s == s[..4] + "-" + s[5..7] + "-" + s[8..];
      Some(s[8..] + "/" + s[5..7] + "/" + s[..4])
    else date
  }

  /** A DD/MM/YYYY date is never YYYY-MM-DD: its fifth character is a digit. */
  lemma BrDateIsNotIso(s: string)
    requires IsBrDate(s)
    ensures !IsIsoDate(s)
  {
    assert s[4] == s[3..5][1];
  }

  /** Formatting twice is formatting once. */
  lemma FormatDateToBRIdempotent(date: Option<string>)
    ensures FormatDateToBR(FormatDateToBR(date)) == FormatDateToBR(date)
  {
    var r := FormatDateToBR(date);
    if Truthy(date) && IsIsoDate(date.value) {
      BrDateIsNotIso(r.value);
    }
  }

  // ---------------------------------------------------------------- queries

  /** A row as `findByTransportadora` hands it out: expiry date normalised. */
  function FormatRow(l: Licence): Licence {
    l.(vencimentoLicenca := FormatDateToBR(l.vencimentoLicenca))
  }

  /**
   * `findByTransportadora(id)`: the carrier's rows in table order, each with its
   * expiry date rewritten by `formatDateToBR`.
   */
  function RowsOf(rows: seq<Licence>, id: int): (r: seq<Licence>)
    ensures |r| <= |rows|
    ensures forall x | x in r :: x.transportadoraId == id
    ensures forall i | 0 <= i < |rows| && rows[i].transportadoraId == id :: FormatRow(rows[i]) in r
    ensures forall x | x in r :: exists i | 0 <= i < |rows| :: rows[i].transportadoraId == id && x == FormatRow(rows[i])
  {
    if rows == [] then []
    else
      var last := rows[|rows| - 1];
      RowsOf(rows[..|rows| - 1], id) + (if last.transportadoraId == id then [FormatRow(last)] else [])
  }

  /**
   * The WHERE clause of `findLicenseForCountries`. A missing country ("") is
   * bound as NULL, and `paisDestino = NULL` holds for no row.
   */
  predicate ForCountries(l: Licence, id: int, paisA: string, paisB: string) {
    l.transportadoraId == id && ((paisA != "" && l.paisDestino == paisA) || (paisB != "" && l.paisDestino == paisB))
  }

  function OtherCarrier(id: int): Licence -> bool {
    (l: Licence) => l.transportadoraId != id
  }

  function OfCarrier(id: int): Licence -> bool {
    (l: Licence) => l.transportadoraId == id
  }

  lemma UniqueKeysAppend(rows: seq<Licence>, l: Licence)
    requires UniqueKeys(rows)
    requires forall x | x in rows :: Key(x) != Key(l)
    ensures UniqueKeys(rows + [l])
  {
    var s := rows + [l];
    forall i, j | 0 <= i < j < |s| ensures Key(s[i]) != Key(s[j]) {
      if j == |rows| {
        assert s[i] in rows;
      }
    }
  }

  /** Deleting rows keeps the key unique. */
  lemma {:induction false} FilterKeepsUniqueKeys(rows: seq<Licence>, p: Licence -> bool)
    requires UniqueKeys(rows)
    ensures UniqueKeys(Filter(rows, p))
  {
    if rows != [] {
      var init, last := rows[..|rows| - 1], rows[|rows| - 1];
      FilterKeepsUniqueKeys(init, p);
      if p(last) {
        forall x | x in Filter(init, p) ensures Key(x) != Key(last) {
          var k :| 0 <= k < |init| && init[k] == x;
          assert rows[k] == x;
        }
        UniqueKeysAppend(Filter(init, p), last);
      }
    }
  }

  class LicenceTable {
    var rows: seq<Licence>

    ghost predicate Valid()
      reads this
    {
      UniqueKeys(rows) && forall i | 0 <= i < |rows| :: rows[i].paisOrigem.None?
    }

    constructor ()
      ensures Valid() && rows == []
    {
      rows := [];
    }

    /** `create(...)`: insert a row, the expiry date normalised, unless its key is taken. */
    method Create(transportadoraId: int, paisDestino: string, licenca: string,
                  idoneidade: Option<string>, vencimentoLicenca: Option<string>)
      returns (r: Result<Licence, DbError>)
      requires Valid()
      modifies this
      ensures Valid()
      ensures r.Failure? <==> HasKey(old(rows), transportadoraId, paisDestino)
      ensures r.Failure? ==> rows == old(rows) && r.error.kind == Unique
      ensures r.Success? ==>
                r.value == Licence(transportadoraId, paisDestino, licenca, idoneidade,
                                   FormatDateToBR(vencimentoLicenca), None)
                && rows == old(rows) + [r.value]
    {
      if HasKey(rows, transportadoraId, paisDestino) {
        return Failure(Violation(Unique, "destination_licenses.transportadoraId, destination_licenses.paisDestino"));
      }
      var l := Licence(transportadoraId, paisDestino, licenca, idoneidade, FormatDateToBR(vencimentoLicenca), None);
      forall x | x in rows ensures Key(x) != Key(l) {
        var k :| 0 <= k < |rows| && rows[k] == x;
      }
      UniqueKeysAppend(rows, l);
      rows := rows + [l];
      return Success(l);
    }

    /** `findByTransportadora(id)`: select the carrier's rows, then rewrite each date in place. */
    method FindByTransportadora(id: int) returns (found: seq<Licence>)
      ensures found == RowsOf(rows, id)
    {
      found := [];
      var i := 0;
      while i < |rows|
        invariant 0 <= i <= |rows|
        invariant found == RowsOf(rows[..i], id)
      {
        assert rows[..i + 1][..i] == rows[..i];
        if rows[i].transportadoraId == id {
          found := found + [FormatRow(rows[i])];
        }
        i := i + 1;
      }
      assert rows[..i] == rows;
    }

    /** `deleteByTransportadora(id)`: drop every row of the carrier; returns the number removed. */
    method DeleteByTransportadora(id: int) returns (changes: nat)
      requires Valid()
      modifies this
      ensures Valid()
      ensures rows == Filter(old(rows), OtherCarrier(id))
      ensures changes == |old(rows)| - |rows|
    {
      var kept := Filter(rows, OtherCarrier(id));
      FilterKeepsUniqueKeys(rows, OtherCarrier(id));
      forall i | 0 <= i < |kept| ensures kept[i].paisOrigem.None? {
        assert kept[i] in kept;
      }
      changes := |rows| - |kept|;
      rows := kept;
    }

    /**
     * `findLicenseByDestination(id, paisDestino)`: the licence code of the row
     * whose carrier and destination match exactly, or null.
     */
    function FindLicenseByDestination(id: int, paisDestino: string): (r: Option<string>)
      reads this
      requires Valid()
      ensures r.Some? <==> HasKey(rows, id, paisDestino)
      ensures forall i | 0 <= i < |rows| && Key(rows[i]) == (id, paisDestino) :: r == Some(rows[i].licenca)
    {
      var row := Find(rows, (l: Licence) => Key(l) == (id, paisDestino));
      if row.Some? then Some(row.value.licenca) else None
    }

    /**
     * `findLicenseForCountries(id, paisA, paisB)`: SQLite's `get` returns some
     * row of the carrier whose destination is A or B, in no guaranteed order,
     * or nothing.
     */
    method FindLicenseForCountries(id: int, paisA: string, paisB: string) returns (r: Option<Licence>)
      ensures r.None? <==> forall l | l in rows :: !ForCountries(l, id, paisA, paisB)
      ensures r.Some? ==> r.value in rows && ForCountries(r.value, id, paisA, paisB)
    {
      if l :| l in rows && ForCountries(l, id, paisA, paisB) {
        r := Some(l);
      } else {
        r := None;
      }
    }
  }
}
