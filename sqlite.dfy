/** The failures of the SQLite tables that the services react to: violated constraints. */
module Sqlite {

  datatype Constraint = Unique | NotNull | PrimaryKey

  datatype DbError = ConstraintViolation(kind: Constraint, message: string)

  /** The driver's error text for a violated constraint on `column`. */
  function ViolationMessage(kind: Constraint, column: string): string {
    "SQLITE_CONSTRAINT: "
    + (match kind
       case Unique => "UNIQUE"
       case NotNull => "NOT NULL"
       case PrimaryKey => "UNIQUE")
    + " constraint failed: " + column
  }

  function Violation(kind: Constraint, column: string): DbError {
    ConstraintViolation(kind, ViolationMessage(kind, column))
  }
}
