/**
 * The `mic_dta` table and the `micdta_crt` junction table that links a
 * MIC-DTA to the CRTs it carries (primary key (micDtaId, crtId)).
 */
module MicDtaStore {
  import opened Wrappers
  import opened Sqlite

  /** A missing request field ("" here) is bound as NULL. */
  datatype MicDta = MicDta(
    id: int,
    numero: string,
    tipo: string,
    paisOrigemCodigo: string,
    paisDestinoCodigo: string,
    licencaComplementar: Option<string>,
    numeroSequencial: int,
    transportadoraId: int,
    dataCriacao: string)

  predicate NumeroTaken(rows: seq<MicDta>, numero: string) {
    exists i | 0 <= i < |rows| :: rows[i].numero == numero
  }

  /** The NOT NULL columns that a request can leave empty. */
  predicate HasNullColumn(m: MicDta) {
    m.paisOrigemCodigo == "" || m.paisDestinoCodigo == "" || m.licencaComplementar.None?
  }

  /** The first null column of `m` in the table's column order, the one SQLite reports. */
  function NullColumn(m: MicDta): (r: Option<string>)
    ensures r.None? <==> !HasNullColumn(m)
    ensures m.paisOrigemCodigo == "" ==> r == Some("mic_dta.paisOrigemCodigo")
    ensures m.paisOrigemCodigo != "" ==> (m.paisDestinoCodigo == "" ==> r == Some("mic_dta.paisDestinoCodigo"))
    ensures r == Some("mic_dta.licencaComplementar") <==>
              m.paisOrigemCodigo != "" && m.paisDestinoCodigo != "" && m.licencaComplementar.None?
  {
    if m.paisOrigemCodigo == "" then Some("mic_dta.paisOrigemCodigo")
    else if m.paisDestinoCodigo == "" then Some("mic_dta.paisDestinoCodigo")
    else if m.licencaComplementar.None? then Some("mic_dta.licencaComplementar")
    else None
  }

  /** The constraint an insert of `m` after `rows` violates, NOT NULL checked first. */
  function Rejected(rows: seq<MicDta>, m: MicDta): (r: Option<DbError>)
    ensures r.Some? <==> HasNullColumn(m) || NumeroTaken(rows, m.numero)
    ensures HasNullColumn(m) ==> r == Some(Violation(NotNull, NullColumn(m).value))
    ensures !HasNullColumn(m) && r.Some? ==> r.value == Violation(Unique, "mic_dta.numero")
  {
    var column := NullColumn(m);
    if column.Some? then Some(Violation(NotNull, column.value))
    else if NumeroTaken(rows, m.numero) then Some(Violation(Unique, "mic_dta.numero"))
    else None
  }

  /** The error of a second link between the same MIC-DTA and CRT. */
  const DuplicateLink: DbError := Violation(PrimaryKey, "micdta_crt.micDtaId, micdta_crt.crtId")

  class MicDtaTable {
    var rows: seq<MicDta>
    var links: set<(int, int)>
    var nextId: int

    ghost predicate Valid()
      reads this
    {
      forall i, j | 0 <= i < j < |rows| :: rows[i].numero != rows[j].numero
    }

    constructor ()
      ensures Valid() && rows == [] && links == {}
    {
      rows := [];
      links := {};
      nextId := 1;
    }

    /** `create(micDta)`: NOT NULL columns first, then the UNIQUE `numero`. */
    method Create(m: MicDta) returns (r: Result<MicDta, DbError>)
      requires Valid()
      modifies this`rows, this`nextId
      ensures Valid()
      ensures r.Failure? <==> HasNullColumn(m) || NumeroTaken(old(rows), m.numero)
      ensures r.Failure? ==> Rejected(old(rows), m) == Some(r.error) && rows == old(rows) && nextId == old(nextId)
      ensures r.Success? ==>
                r.value == m.(id := old(nextId)) && rows == old(rows) + [r.value] && nextId == old(nextId) + 1
    {
      var e := Rejected(rows, m);
      if e.Some? {
        return Failure(e.value);
      }
      var row := m.(id := nextId);
      rows := rows + [row];
      nextId := nextId + 1;
      return Success(row);
    }

    /** `linkToCrt(micDtaId, crtId)`: insert the pair unless it is already linked. */
    method LinkToCrt(micDtaId: int, crtId: int) returns (r: Result<(), DbError>)
      modifies this`links
      ensures r.Failure? <==> (micDtaId, crtId) in old(links)
      ensures r.Failure? ==> r.error == DuplicateLink
      ensures links == old(links) + {(micDtaId, crtId)}
    {
      if (micDtaId, crtId) in links {
        return Failure(DuplicateLink);
      }
      links := links + {(micDtaId, crtId)};
      return Success(());
    }
  }
}
