/**
 * Worked cases over a `users` table whose schema is `id, name, email` and
 * whose primary key is `id`.
 */
module Scenarios {
  import opened Php
  import opened BaseModel

  const Users := Table("users", "id")
  const UserColumns: seq<string> := ["id", "name", "email"]

  /** An INSERT into `users` lists `name` and `email`, never `id`. */
  lemma UserInsertColumns()
    ensures InsertColumns(Users, UserColumns) == ["name", "email"]
  {
    assert UserColumns[..2] == ["id", "name"] && UserColumns[..1] == ["id"] && UserColumns[..0] == [];
    assert Without(["id"], "id") == [];
    assert Without(["id", "name"], "id") == ["name"];
  }

  /** Only the key and an unknown column: nothing to insert. */
  lemma InsertNothing()
    ensures InsertPlan(Users, UserColumns, OrderedMap(["id", "bogus"], map["id" := "7", "bogus" := "x"]))
      == Err(PdoException("No valid columns found for insert"))
  {
    var input: PhpArray<string> := OrderedMap(["id", "bogus"], map["id" := "7", "bogus" := "x"]);
    assert forall k :: HasKey(input, k) ==> k == "id" || k == "bogus";
    assert NothingWritable(Users, UserColumns, input);
  }

  /** Of `name` and `bogus`, only `name` is a column of `users`. */
  lemma NameKept()
    ensures KeysIn(["name", "bogus"], UserColumns) == ["name"]
  {
    var cs := ["id", "name", "email"];
    assert "bogus" !in cs by {
      assert "bogus"[0] !in {'i', 'n', 'e'};
    }
    assert "name" == cs[1];
    KeysInSnoc([], "name", cs);
    KeysInSnoc(["name"], "bogus", cs);
    assert [] + ["name"] == ["name"] && ["name"] + ["bogus"] == ["name", "bogus"];
  }

  /** Of `name` and `bogus`, only `name` is writable, and it keeps its value. */
  lemma NameWritable(input: PhpArray<string>)
    requires input.keys == ["name", "bogus"] && input.values["name"] == "Ann B."
    ensures Writable(Users, UserColumns, input).keys == ["name"]
    ensures Values(Writable(Users, UserColumns, input)) == ["Ann B."]
  {
    NameKept();
    assert "id" !in ["name"];
    var f := Writable(Users, UserColumns, input);
    assert f.keys == ["name"];
    assert HasKey(f, "name");
  }

  /**
   * `update("42", ...)` with `name` and an unknown column sets `name` only
   * (the SET list of `UpdateSql` is the one column), then binds the id.
   */
  lemma UpdateName(input: PhpArray<string>)
    requires input.keys == ["name", "bogus"] && input.values["name"] == "Ann B."
    ensures UpdatePlan(Users, UserColumns, "42", input) == Ok(Prepared(UpdateSql(Users, ["name"]), ["Ann B.", "42"]))
  {
    NameWritable(input);
    assert ["Ann B."] + ["42"] == ["Ann B.", "42"];
  }

  /** `get("42x")` is refused before any query. */
  lemma GetNonNumeric()
    ensures Get(Users, UserColumns, Str("42x"), []) == Err(NotNumeric(Users))
    ensures GetAsWritten(Users, UserColumns, Str("42x"), []) == Err(NotNumeric(Users))
  {
    LowerIsId("id");
    assert !IsDigit("42x"[2]);
  }

  /** As written, `get("42")` is refused too, although `42` is all digits. */
  lemma GetDigitsAsWritten()
    ensures GetAsWritten(Users, UserColumns, Str("42"), []) == Err(NotNumeric(Users))
  {
    LowerIsId("id");
    GetAsWrittenRejectsEveryValue(Users, UserColumns, Str("42"), []);
  }

  /** Corrected, `get("42")` on a table without that row raises "Record not found". */
  lemma GetDigitsMissing()
    ensures Get(Users, UserColumns, Str("42"), []) == Err(PdoException("Record not found"))
  {
    assert AllDigits("42");
    GetSelectsByPrimaryKey(Users, UserColumns, Str("42"), []);
  }

  /** `getBy` on a column the table lacks, as written and corrected. */
  lemma GetByMissingColumn()
    ensures GetBy(Users, UserColumns, "missing_col", Empty(), true, [])
      == Err(PdoException("Unknown column missing_col"))
    ensures GetByAsWritten(Users, UserColumns, "missing_col", Empty(), true, [])
      == Err(PdoException("Unknown column missing_col"))
  {
  }

  /**
   * `delete(7)` is refused as written, and still refused once `getBy` is
   * corrected: 7 is read as a control character.
   */
  lemma DeleteSevenAsWritten()
    ensures DeleteAsWritten(Users, UserColumns, 7, []) == Err(NotNumeric(Users))
    ensures DeleteWithIntId(Users, UserColumns, 7, []) == Err(NotNumeric(Users))
  {
    LowerIsId("id");
    DeleteAsWrittenRejectsEveryId(Users, UserColumns, 7, []);
    DeleteWithIntIdRejectsSmallIds(Users, UserColumns, 7, []);
  }
}
