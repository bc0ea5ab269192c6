/**
 * The `crt` table: issued CRTs, `numero` UNIQUE and every column NOT NULL. A
 * request string that is missing ("" here) is bound as NULL.
 */
module CrtStore {
  import opened Wrappers
  import opened Sqlite

  datatype Crt = Crt(
    id: int,
    numero: string,
    paisOrigemCodigo: string,
    paisDestinoCodigo: string,
    licencaComplementar: Option<string>,
    numeroSequencial: int,
    faturaComercial: string,
    exportador: string,
    importador: string,
    dataCriacao: string,
    transportadoraId: int)

  predicate NumeroTaken(rows: seq<Crt>, numero: string) {
    exists i | 0 <= i < |rows| :: rows[i].numero == numero
  }

  lemma NumeroTakenAppend(rows: seq<Crt>, row: Crt, numero: string)
    ensures NumeroTaken(rows + [row], numero) <==> NumeroTaken(rows, numero) || row.numero == numero
  {
    if NumeroTaken(rows + [row], numero) && row.numero != numero {
      var k :| 0 <= k < |rows + [row]| && (rows + [row])[k].numero == numero;
      assert rows[k].numero == numero;
    }
    if NumeroTaken(rows, numero) {
      var k :| 0 <= k < |rows| && rows[k].numero == numero;
      assert (rows + [row])[k].numero == numero;
    }
    if row.numero == numero {
      assert (rows + [row])[|rows|].numero == numero;
    }
  }

  /** Some NOT NULL column that a request or the code lookup can leave empty is null in `c`. */
  predicate HasNullColumn(c: Crt) {
    || c.paisOrigemCodigo == "" || c.paisDestinoCodigo == "" || c.licencaComplementar.None?
    || c.faturaComercial == "" || c.exportador == "" || c.importador == ""
  }

  /** The first null column of `c` in the table's column order, the one SQLite reports. */
  function NullColumn(c: Crt): (r: Option<string>)
    ensures r.None? <==> !HasNullColumn(c)
    ensures c.paisOrigemCodigo == "" ==> r == Some("crt.paisOrigemCodigo")
    ensures c.licencaComplementar.None? && c.paisOrigemCodigo != "" && c.paisDestinoCodigo != "" ==>
              r == Some("crt.licencaComplementar")
    ensures (c.paisOrigemCodigo != "" && c.paisDestinoCodigo != "" && c.licencaComplementar.Some?) ==>
              (c.faturaComercial == "" ==> r == Some("crt.faturaComercial"))
    ensures r.Some? ==> r.value in {"crt.paisOrigemCodigo", "crt.paisDestinoCodigo", "crt.licencaComplementar",
                                    "crt.faturaComercial", "crt.exportador", "crt.importador"}
  {
    if c.paisOrigemCodigo == "" then Some("crt.paisOrigemCodigo")
    else if c.paisDestinoCodigo == "" then Some("crt.paisDestinoCodigo")
    else if c.licencaComplementar.None? then Some("crt.licencaComplementar")
    else if c.faturaComercial == "" then Some("crt.faturaComercial")
    else if c.exportador == "" then Some("crt.exportador")
    else if c.importador == "" then Some("crt.importador")
    else None
  }

  /** The constraint an insert of `c` after `rows` violates, NOT NULL checked first. */
  function Rejected(rows: seq<Crt>, c: Crt): (r: Option<DbError>)
    ensures r.Some? <==> HasNullColumn(c) || NumeroTaken(rows, c.numero)
    ensures HasNullColumn(c) ==> r == Some(Violation(NotNull, NullColumn(c).value))
    ensures !HasNullColumn(c) && r.Some? ==> r.value == Violation(Unique, "crt.numero")
  {
    var column := NullColumn(c);
    if column.Some? then Some(Violation(NotNull, column.value))
    else if NumeroTaken(rows, c.numero) then Some(Violation(Unique, "crt.numero"))
    else None
  }

  class CrtTable {
    var rows: seq<Crt>
    var nextId: int

    ghost predicate Valid()
      reads this
    {
      forall i, j | 0 <= i < j < |rows| :: rows[i].numero != rows[j].numero
    }

    constructor ()
      ensures Valid() && rows == []
    {
      rows := [];
      nextId := 1;
    }

    /**
     * `create(crt)`: the insert fails on a null column (NOT NULL) or on a
     * `numero` already issued (UNIQUE); otherwise the row gets the next id.
     */
    method Create(c: Crt) returns (r: Result<Crt, DbError>)
      requires Valid()
      modifies this
      ensures Valid()
      ensures r.Failure? <==> HasNullColumn(c) || NumeroTaken(old(rows), c.numero)
      ensures r.Failure? ==> Rejected(old(rows), c) == Some(r.error) && rows == old(rows) && nextId == old(nextId)
      ensures r.Success? ==>
                r.value == c.(id := old(nextId)) && rows == old(rows) + [r.value] && nextId == old(nextId) + 1
    {
      var e := Rejected(rows, c);
      if e.Some? {
        return Failure(e.value);
      }
      var row := c.(id := nextId);
      rows := rows + [row];
      nextId := nextId + 1;
      return Success(row);
    }
  }
}
