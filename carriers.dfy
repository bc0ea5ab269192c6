/**
 * The `transportadoras` table: carriers with their home country, registration
 * number (UNIQUE) and the two starting offsets of their document counters.
 */
module Carriers {
  import opened Wrappers
  import opened Sqlite

  datatype Carrier = Carrier(
    id: int,
    nome: string,
    pais: string,
    numeroRegistro: string,
    numeroInicialCRT: Option<int>,
    numeroInicialMicDta: Option<int>)

  /**
   * A starting offset as `create` stores it: the service defaults a missing
   * value to 1 and the insert replaces any falsy one (0 included) by 1.
   */
  function StartingOffset(n: Option<int>): (r: int)
    ensures r != 0
    ensures n.Some? && n.value != 0 ==> r == n.value
  {
    if n.None? || n.value == 0 then 1 else n.value
  }

  /**
   * A stored offset as the engine's `numeroInicial - 1` reads it: `update`
   * writes a missing value as NULL (`None`), and NULL in arithmetic is 0.
   */
  function OffsetValue(n: Option<int>): int {
    if n.Some? then n.value else 0
  }

  /** Some carrier of `rows` already holds the registration number. */
  predicate RegistroInUse(rows: map<int, Carrier>, numeroRegistro: string) {
    exists id | id in rows :: rows[id].numeroRegistro == numeroRegistro
  }

  /**
   * The first NOT NULL column, in the table's column order, that a request
   * leaves null (a missing string, "" here, is bound as NULL).
   */
  function CarrierNullColumn(nome: string, pais: string, numeroRegistro: string): (r: Option<string>)
    ensures r.None? <==> nome != "" && pais != "" && numeroRegistro != ""
    ensures nome == "" ==> r == Some("transportadoras.nome")
    ensures r == Some("transportadoras.numeroRegistro") <==> nome != "" && pais != "" && numeroRegistro == ""
  {
    if nome == "" then Some("transportadoras.nome")
    else if pais == "" then Some("transportadoras.pais")
    else if numeroRegistro == "" then Some("transportadoras.numeroRegistro")
    else None
  }

  /**
   * The constraint a write of the row violates when `others` are the other
   * carriers: NOT NULL first, then the UNIQUE registration number.
   */
  function CarrierRejected(others: map<int, Carrier>, nome: string, pais: string, numeroRegistro: string): (r: Option<DbError>)
    ensures r.Some? <==> CarrierNullColumn(nome, pais, numeroRegistro).Some? || RegistroInUse(others, numeroRegistro)
    ensures r.Some? ==> (r.value.kind == Unique <==> CarrierNullColumn(nome, pais, numeroRegistro).None?)
    ensures CarrierNullColumn(nome, pais, numeroRegistro).Some? ==>
              r == Some(Violation(NotNull, CarrierNullColumn(nome, pais, numeroRegistro).value))
  {
    var column := CarrierNullColumn(nome, pais, numeroRegistro);
    if column.Some? then Some(Violation(NotNull, column.value))
    else if RegistroInUse(others, numeroRegistro) then Some(Violation(Unique, "transportadoras.numeroRegistro"))
    else None
  }

  class CarrierTable {
    var rows: map<int, Carrier>
    var nextId: int

    ghost predicate Valid()
      reads this
    {
      && (forall id | id in rows :: rows[id].id == id && id < nextId)
      && (forall a, b | a in rows && b in rows && a != b :: rows[a].numeroRegistro != rows[b].numeroRegistro)
    }

    constructor ()
      ensures Valid() && rows == map[]
    {
      rows := map[];
      nextId := 1;
    }

    /** `findById(id)`. */
    function FindById(id: int): (r: Option<Carrier>)
      reads this
      ensures r.Some? <==> id in rows
      ensures r.Some? ==> r.value == rows[id]
    {
      if id in rows then Some(rows[id]) else None
    }

    /**
     * `create(...)`: insert with a fresh id unless a NOT NULL column is null or
     * the registration number is taken.
     */
    method Create(nome: string, pais: string, numeroRegistro: string,
                  numeroInicialCRT: Option<int>, numeroInicialMicDta: Option<int>)
      returns (r: Result<Carrier, DbError>)
      requires Valid()
      modifies this
      ensures Valid()
      ensures r.Failure? <==> CarrierNullColumn(nome, pais, numeroRegistro).Some? || RegistroInUse(old(rows), numeroRegistro)
      ensures r.Failure? ==> rows == old(rows) && CarrierRejected(old(rows), nome, pais, numeroRegistro) == Some(r.error)
      ensures r.Success? ==>
                && r.value == Carrier(old(nextId), nome, pais, numeroRegistro,
                                      Some(StartingOffset(numeroInicialCRT)), Some(StartingOffset(numeroInicialMicDta)))
                && r.value.id !in old(rows)
                && rows == old(rows)[r.value.id := r.value]
    {
      var e := CarrierRejected(rows, nome, pais, numeroRegistro);
      if e.Some? {
        return Failure(e.value);
      }
      var c := Carrier(nextId, nome, pais, numeroRegistro,
                       Some(StartingOffset(numeroInicialCRT)), Some(StartingOffset(numeroInicialMicDta)));
      rows := rows[nextId := c];
      nextId := nextId + 1;
      return Success(c);
    }

    /**
     * `update(id, ...)`: overwrite every column of the carrier; `false` when no
     * row has that id, and a constraint error when the new row breaks one.
     */
    method Update(id: int, nome: string, pais: string, numeroRegistro: string,
                  numeroInicialCRT: Option<int>, numeroInicialMicDta: Option<int>)
      returns (r: Result<bool, DbError>)
      requires Valid()
      modifies this
      ensures Valid()
      ensures id !in old(rows) ==> r == Success(false) && rows == old(rows)
      ensures id in old(rows) && CarrierRejected(old(rows) - {id}, nome, pais, numeroRegistro).Some? ==>
                r == Failure(CarrierRejected(old(rows) - {id}, nome, pais, numeroRegistro).value) && rows == old(rows)
      ensures id in old(rows) && CarrierRejected(old(rows) - {id}, nome, pais, numeroRegistro).None? ==>
                && r == Success(true)
                && rows == old(rows)[id := Carrier(id, nome, pais, numeroRegistro,
                                                   numeroInicialCRT, numeroInicialMicDta)]
    {
      if id !in rows {
        return Success(false);
      }
      var e := CarrierRejected(rows - {id}, nome, pais, numeroRegistro);
      if e.Some? {
        return Failure(e.value);
      }
      forall other | other in rows && other != id ensures rows[other].numeroRegistro != numeroRegistro {
        assert other in rows - {id};
      }
      rows := rows[id := Carrier(id, nome, pais, numeroRegistro,
                                 numeroInicialCRT, numeroInicialMicDta)];
      return Success(true);
    }
  }
}
