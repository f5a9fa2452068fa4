/**
 * The statement building and input filtering of the generic data-access class
 * `BaseModel`: which columns a write may touch, the INSERT and UPDATE texts and
 * their parameters, and the guards the lookups apply before any query.
 *
 * The database is not modelled. The column list that `getTableColumns` reads
 * with `DESCRIBE` is the parameter `columns`, and the rows a SELECT matches are
 * the parameter `matching`. Prepared statements are returned as values.
 */
module BaseModel {
  import opened Php

  /** What a concrete model fixes: `$table` and `$primaryKey`. */
  datatype Table = Table(name: string, primaryKey: string)

  /** Every failure the class raises is a `\PDOException` with a message. */
  datatype Error = PdoException(message: string)

  datatype Result<T> = Ok(value: T) | Err(error: Error)

  /** The text handed to `prepare` and the parameters handed to `execute`. */
  datatype Prepared<P> = Prepared(sql: string, params: P)

  /** A row as `fetch` returns it: column name to value. */
  type Row = PhpArray<Mixed>

  /** What `getResults` (every row) or `getRow` (the first row, or `false`) returns. */
  datatype Fetched = RowSet(rows: seq<Row>) | OneRow(row: Row) | NoRow

  /** A SELECT as issued, and what the driver answered it with. */
  datatype Lookup = Lookup(sql: string, params: PhpArray<Mixed>, fetched: Fetched)

  /** What `delete` ends with: `return false`, or the DELETE it issued and its `:pk`. */
  datatype DeleteOutcome = ReturnedFalse | Deleted(lookup: Lookup, sql: string, pk: int)

  // ---------------------------------------------------------------- filtering

  /** `filterColumns`: the entries whose key is a table column, in input order. */
  function Filtered<V>(input: PhpArray<V>, columns: seq<string>): (r: PhpArray<V>)
    ensures forall k :: HasKey(r, k) <==> HasKey(input, k) && k in columns
    ensures forall k :: HasKey(r, k) ==> HasKey(input, k) && r.values[k] == input.values[k]
  {
    OrderedMap(KeysIn(input.keys, columns), map k | k in input.values && k in columns :: input.values[k])
  }

  /** The values `filterColumns` has copied after looking at the first `n` keys. */
  ghost function CopiedValues<V>(input: PhpArray<V>, columns: seq<string>, n: nat): map<string, V>
    requires n <= |input.keys|
  {
    map k | k in input.keys[..n] && k in columns :: input.values[k]
  }

  lemma CopiedValuesStep<V>(input: PhpArray<V>, columns: seq<string>, i: nat)
    requires i < |input.keys|
    ensures CopiedValues(input, columns, i + 1) ==
      if input.keys[i] in columns then CopiedValues(input, columns, i)[input.keys[i] := input.values[input.keys[i]]]
      else CopiedValues(input, columns, i)
  {
    assert input.keys[..i + 1] == input.keys[..i] + [input.keys[i]];
  }

  /** `filterColumns` as the class runs it: one pass that assigns each known key. */
  method FilterColumns<V>(input: PhpArray<V>, columns: seq<string>) returns (output: PhpArray<V>)
    ensures output == Filtered(input, columns)
  {
    output := Empty();
    var i := 0;
    while i < |input.keys|
      invariant 0 <= i <= |input.keys|
      invariant output.keys == KeysIn(input.keys[..i], columns)
      invariant output.values == CopiedValues(input, columns, i)
    {
      var key := input.keys[i];
      assert input.keys[..i + 1] == input.keys[..i] + [key];
      KeysInSnoc(input.keys[..i], key, columns);
      CopiedValuesStep(input, columns, i);
      if key in columns {
        assert key !in input.keys[..i];
        assert key !in output.values;
        output := Put(output, key, input.values[key]);
      }
      i := i + 1;
    }
    assert input.keys[..i] == input.keys;
  }

  /** Filtering twice keeps what filtering once kept. */
  lemma FilteredIdempotent<V>(input: PhpArray<V>, columns: seq<string>)
    ensures Filtered(Filtered(input, columns), columns) == Filtered(input, columns)
  {
    var once := Filtered(input, columns);
    var twice := Filtered(once, columns);
    KeysInIdempotent(input.keys, columns);
    assert twice.values == once.values;
  }

  lemma {:induction false} KeysInIdempotent(ks: seq<string>, allowed: seq<string>)
    ensures KeysIn(KeysIn(ks, allowed), allowed) == KeysIn(ks, allowed)
  {
    if ks != [] {
      var init, last := ks[..|ks| - 1], ks[|ks| - 1];
      KeysInIdempotent(init, allowed);
      var r0 := KeysIn(init, allowed);
      if last in allowed {
        assert (r0 + [last])[..|r0|] == r0;
      }
    }
  }

  /** The filtered array keeps the input's order: of two kept keys, the earlier input key comes first. */
  lemma FilteredKeepsOrder<V>(input: PhpArray<V>, columns: seq<string>, i: nat, j: nat)
    requires i < j < |input.keys| && input.keys[i] in columns && input.keys[j] in columns
    ensures exists p, q ::
      && 0 <= p < q < |Filtered(input, columns).keys|
      && Filtered(input, columns).keys[p] == input.keys[i]
      && Filtered(input, columns).keys[q] == input.keys[j]
  {
    var kept := Filtered(input, columns).keys;
    assert kept == KeysIn(input.keys, columns);
    assert Distinct(input.keys);
    KeysInKeepsOrder(input.keys, columns, i, j);
    var p, q :| 0 <= p < q < |kept| && kept[p] == input.keys[i] && kept[q] == input.keys[j];
  }

  /** The filtered array is never longer than the input. */
  lemma FilteredNoLonger<V>(input: PhpArray<V>, columns: seq<string>)
    ensures |Filtered(input, columns).keys| <= |input.keys|
  {
    KeysInShorter(input.keys, columns);
  }

  lemma {:induction false} KeysInShorter(ks: seq<string>, allowed: seq<string>)
    ensures |KeysIn(ks, allowed)| <= |ks|
  {
    if ks != [] {
      KeysInShorter(ks[..|ks| - 1], allowed);
    }
  }

  /**
   * The entries `insert` and `update` may write: `filterColumns`, then the
   * primary-key entry unset if present.
   */
  function Writable<V>(t: Table, columns: seq<string>, input: PhpArray<V>): (r: PhpArray<V>)
    ensures forall k :: HasKey(r, k) <==> HasKey(input, k) && k in columns && k != t.primaryKey
    ensures forall k :: HasKey(r, k) ==> HasKey(input, k) && r.values[k] == input.values[k]
    ensures r.keys == Without(KeysIn(input.keys, columns), t.primaryKey)
  {
    var f := Filtered(input, columns);
    if HasKey(f, t.primaryKey) then Unset(f, t.primaryKey) else f
  }

  /** Whether a caller's input leaves nothing to write. */
  predicate NothingWritable<V>(t: Table, columns: seq<string>, input: PhpArray<V>) {
    forall k :: HasKey(input, k) ==> k !in columns || k == t.primaryKey
  }

  lemma WritableEmpty<V>(t: Table, columns: seq<string>, input: PhpArray<V>)
    ensures Writable(t, columns, input).keys == [] <==> NothingWritable(t, columns, input)
  {
    EmptyKeys(Writable(t, columns, input));
  }

  // ------------------------------------------------------------------- insert

  /** The table columns an INSERT lists: all but the primary key, in schema order. */
  function InsertColumns(t: Table, columns: seq<string>): seq<string> {
    Without(columns, t.primaryKey)
  }

  /** The INSERT text, with `rtrim` stripping the placeholder list's trailing commas. */
  function InsertSql(t: Table, columns: seq<string>): string {
    var cs := InsertColumns(t, columns);
    "INSERT INTO `" + t.name + "` (" + Join(",", Wrap(cs, "`", "`")) + ") VALUES ("
      + RTrim(Join(",", Wrap(cs, ":", "")), {','}) + ")"
  }

  /** The value bound for column `c`: the filtered input's, or '' when it has none. */
  function Bound(f: PhpArray<string>, c: string): string {
    if HasKey(f, c) then f.values[c] else ""
  }

  /** The named parameters the VALUES loop assigns, one `:c` per listed column. */
  function InsertParams(cs: seq<string>, f: PhpArray<string>): PhpArray<string> {
    if cs == [] then Empty()
    else
      var c := cs[|cs| - 1];
      Put(InsertParams(cs[..|cs| - 1], f), ":" + c, Bound(f, c))
  }

  /** What `insert` prepares for a given input, or the exception it raises first. */
  function InsertPlan(t: Table, columns: seq<string>, input: PhpArray<string>): (r: Result<Prepared<PhpArray<string>>>)
    ensures r.Err? <==> NothingWritable(t, columns, input)
    ensures r.Err? ==> r.error == PdoException("No valid columns found for insert")
  {
    WritableEmpty(t, columns, input);
    var f := Writable(t, columns, input);
    if f.keys == [] then Err(PdoException("No valid columns found for insert"))
    else Ok(Prepared(InsertSql(t, columns), InsertParams(InsertColumns(t, columns), f)))
  }

  /**
   * One step of a loop over the columns that skips the primary key and appends
   * `pre + c + post` followed by `sep` (written together as `postSep`).
   */
  lemma ColumnLoopStep(columns: seq<string>, i: nat, pk: string, sep: string, pre: string, post: string, postSep: string)
    requires i < |columns| && postSep == post + sep
    ensures columns[i] != pk ==>
      JoinedThen(sep, Wrap(Without(columns[..i + 1], pk), pre, post)) ==
      JoinedThen(sep, Wrap(Without(columns[..i], pk), pre, post)) + (pre + columns[i] + postSep)
    ensures columns[i] == pk ==>
      JoinedThen(sep, Wrap(Without(columns[..i + 1], pk), pre, post)) ==
      JoinedThen(sep, Wrap(Without(columns[..i], pk), pre, post))
  {
    var c := columns[i];
    assert columns[..i + 1] == columns[..i] + [c];
    var done := Without(columns[..i], pk);
    WithoutSnoc(columns[..i], c, pk);
    if c != pk {
      var x := pre + c + post;
      var j0 := JoinedThen(sep, Wrap(done, pre, post));
      WrapSnoc(done, c, pre, post);
      JoinedThenSnoc(sep, Wrap(done, pre, post), x);
      AppendAssoc(j0, x, sep);
      AppendAssoc(pre + c, post, sep);
    }
  }

  /** One step of the VALUES loop's parameter assignments. */
  lemma ParamLoopStep(columns: seq<string>, i: nat, pk: string, f: PhpArray<string>)
    requires i < |columns|
    ensures InsertParams(Without(columns[..i + 1], pk), f) ==
      if columns[i] != pk then Put(InsertParams(Without(columns[..i], pk), f), ":" + columns[i], Bound(f, columns[i]))
      else InsertParams(Without(columns[..i], pk), f)
  {
    assert columns[..i + 1] == columns[..i] + [columns[i]];
    var done := Without(columns[..i], pk);
    assert (done + [columns[i]])[..|done|] == done;
  }

  /** `rtrim(..., ',')` after the column-name loop removes just the last separator. */
  lemma ColumnListTrimmed(head: string, cs: seq<string>)
    requires |head| > 0 && head[|head| - 1] == '('
    ensures RTrim(head + JoinedThen(",", Wrap(cs, "`", "`")), {','}) == head + Join(",", Wrap(cs, "`", "`"))
  {
    if cs == [] {
      assert head + "" == head;
    } else {
      var quoted := Join(",", Wrap(cs, "`", "`"));
      JoinLast(",", Wrap(cs, "`", "`"));
      assert RTrim(quoted + ",", {','}) == quoted;
      RTrimConcat(head, quoted + ",", {','});
    }
  }

  /** `rtrim(..., ',')` after the placeholder loop trims the placeholder list and nothing before it. */
  lemma PlaceholderListTrimmed(head: string, cs: seq<string>)
    requires |head| > 0 && head[|head| - 1] == '('
    ensures RTrim(head + JoinedThen(",", Wrap(cs, ":", "")), {','}) == head + RTrim(Join(",", Wrap(cs, ":", "")), {','})
  {
    if cs == [] {
      assert head + "" == head;
    } else {
      var placeholders := Join(",", Wrap(cs, ":", ""));
      JoinFirst(",", Wrap(cs, ":", ""));
      RTrimKeepsFirst(placeholders, {','});
      RTrimDropsTrimmable(placeholders, ",", {','});
      RTrimConcat(head, placeholders + ",", {','});
    }
  }

  /** A prepared insert lists at least one column: some non-key column was supplied. */
  lemma InsertColumnsNonEmpty(t: Table, columns: seq<string>, input: PhpArray<string>)
    requires Writable(t, columns, input).keys != []
    ensures InsertColumns(t, columns) != []
  {
    var k := Writable(t, columns, input).keys[0];
    assert HasKey(Writable(t, columns, input), k);
    assert k in InsertColumns(t, columns);
  }

  /** `insert` up to `prepare`: filtering, the empty-input guard, then the statement. */
  method Insert(t: Table, columns: seq<string>, input: PhpArray<string>) returns (r: Result<Prepared<PhpArray<string>>>)
    ensures r == InsertPlan(t, columns, input)
  {
    var filtered := FilterColumns(input, columns);
    if HasKey(filtered, t.primaryKey) {
      filtered := Unset(filtered, t.primaryKey);
    }
    assert filtered == Writable(t, columns, input);
    if filtered.keys == [] {
      return Err(PdoException("No valid columns found for insert"));
    }
    var statement := InsertStatement(t, columns, filtered);
    r := Ok(statement);
  }

  /** The two loops of `insert` over the table's columns, and the statement they build. */
  method InsertStatement(t: Table, columns: seq<string>, filtered: PhpArray<string>) returns (p: Prepared<PhpArray<string>>)
    ensures p == Prepared(InsertSql(t, columns), InsertParams(InsertColumns(t, columns), filtered))
  {
    var query := InsertColumnList(t, columns);
    var parameters;
    query, parameters := InsertPlaceholders(t, columns, filtered, query);
    p := Prepared(query, parameters);
  }

  /** The first loop: the quoted non-key columns, `rtrim`med of the last comma, then `) VALUES (`. */
  method InsertColumnList(t: Table, columns: seq<string>) returns (query: string)
    ensures query == "INSERT INTO `" + t.name + "` (" + Join(",", Wrap(InsertColumns(t, columns), "`", "`")) + ") VALUES ("
  {
    query := "INSERT INTO `" + t.name + "` (";
    ghost var head := query;
    for i := 0 to |columns|
      invariant query == head + JoinedThen(",", Wrap(Without(columns[..i], t.primaryKey), "`", "`"))
    {
      ColumnLoopStep(columns, i, t.primaryKey, ",", "`", "`", "`,");
      if columns[i] != t.primaryKey {
        AppendAssoc(head, JoinedThen(",", Wrap(Without(columns[..i], t.primaryKey), "`", "`")), "`" + columns[i] + "`,");
        query := query + ("`" + columns[i] + "`,");
      }
    }
    assert columns[..|columns|] == columns;
    ColumnListTrimmed(head, InsertColumns(t, columns));
    query := RTrim(query, {','}) + ") VALUES (";
  }

  /**
   * The second loop: a placeholder `:c` per non-key column appended to `query`,
   * each bound to the filtered value of `c` or to '', then the list `rtrim`med
   * and closed.
   */
  method InsertPlaceholders(t: Table, columns: seq<string>, filtered: PhpArray<string>, head: string)
    returns (query: string, parameters: PhpArray<string>)
    requires |head| > 0 && head[|head| - 1] == '('
    ensures query == head + RTrim(Join(",", Wrap(InsertColumns(t, columns), ":", "")), {','}) + ")"
    ensures parameters == InsertParams(InsertColumns(t, columns), filtered)
  {
    query := head;
    parameters := Empty();
    for i := 0 to |columns|
      invariant query == head + JoinedThen(",", Wrap(Without(columns[..i], t.primaryKey), ":", ""))
      invariant parameters == InsertParams(Without(columns[..i], t.primaryKey), filtered)
    {
      ColumnLoopStep(columns, i, t.primaryKey, ",", ":", "", ",");
      ParamLoopStep(columns, i, t.primaryKey, filtered);
      if columns[i] != t.primaryKey {
        AppendAssoc(head, JoinedThen(",", Wrap(Without(columns[..i], t.primaryKey), ":", "")), ":" + columns[i] + ",");
        query := query + (":" + columns[i] + ",");
        if HasKey(filtered, columns[i]) {
          parameters := Put(parameters, ":" + columns[i], filtered.values[columns[i]]);
        } else {
          parameters := Put(parameters, ":" + columns[i], "");
        }
      }
    }
    assert columns[..|columns|] == columns;
    PlaceholderListTrimmed(head, InsertColumns(t, columns));
    query := RTrim(query, {','}) + ")";
  }

  lemma PlaceholderInjective(a: string, b: string)
    ensures ":" + a == ":" + b <==> a == b
  {
    if ":" + a == ":" + b {
      assert a == (":" + a)[1..] && b == (":" + b)[1..];
    }
  }

  /** The bound names are exactly the placeholders of the listed columns; each holds its column's value or ''. */
  lemma {:induction false} InsertParamsExact(cs: seq<string>, f: PhpArray<string>)
    ensures forall k :: HasKey(InsertParams(cs, f), k) <==> k in Wrap(cs, ":", "")
    ensures forall i :: 0 <= i < |cs| ==>
      HasKey(InsertParams(cs, f), ":" + cs[i]) && InsertParams(cs, f).values[":" + cs[i]] == Bound(f, cs[i])
  {
    if cs != [] {
      var init, last := cs[..|cs| - 1], cs[|cs| - 1];
      assert cs == init + [last];
      InsertParamsExact(init, f);
      WrapSnoc(init, last, ":", "");
      WrapPlain(cs, ":");
      WrapPlain(init, ":");
      assert ":" + last + "" == ":" + last;
      var p := InsertParams(cs, f);
      forall i | 0 <= i < |cs|
        ensures HasKey(p, ":" + cs[i]) && p.values[":" + cs[i]] == Bound(f, cs[i])
      {
        PlaceholderInjective(cs[i], last);
        if i < |init| {
          assert cs[i] == init[i];
        }
      }
      forall k ensures HasKey(p, k) <==> k in Wrap(cs, ":", "") {
        if k in Wrap(cs, ":", "") {
          var i :| 0 <= i < |cs| && Wrap(cs, ":", "")[i] == k;
          assert k == ":" + cs[i];
        }
      }
    }
  }

  /** With no repeated column, the bound names come in the order of the listed columns. */
  lemma {:induction false} InsertParamsOrder(cs: seq<string>, f: PhpArray<string>)
    requires Distinct(cs)
    ensures InsertParams(cs, f).keys == Wrap(cs, ":", "")
  {
    if cs != [] {
      var init, last := cs[..|cs| - 1], cs[|cs| - 1];
      assert cs == init + [last];
      assert Distinct(init);
      InsertParamsOrder(init, f);
      InsertParamsExact(init, f);
      WrapPlain(init, ":");
      forall k | k in Wrap(init, ":", "") ensures k != ":" + last {
        var i :| 0 <= i < |init| && Wrap(init, ":", "")[i] == k;
        PlaceholderInjective(init[i], last);
      }
      assert !HasKey(InsertParams(init, f), ":" + last);
      WrapSnoc(init, last, ":", "");
      assert ":" + last + "" == ":" + last;
    }
  }

  /**
   * A prepared INSERT binds exactly the placeholders of the non-key columns:
   * nothing named after the primary key or outside the table. Each holds the
   * caller's value for that column, or '' when the caller gave none.
   */
  lemma InsertBindsEveryColumn(t: Table, columns: seq<string>, input: PhpArray<string>)
    requires !NothingWritable(t, columns, input)
    ensures forall c :: c in InsertColumns(t, columns) <==> c in columns && c != t.primaryKey
    ensures forall k :: HasKey(InsertPlan(t, columns, input).value.params, k) <==>
      k in Wrap(InsertColumns(t, columns), ":", "")
    ensures forall i :: 0 <= i < |InsertColumns(t, columns)| ==>
      var c := InsertColumns(t, columns)[i];
      HasKey(InsertPlan(t, columns, input).value.params, ":" + c) &&
      InsertPlan(t, columns, input).value.params.values[":" + c] == if HasKey(input, c) then input.values[c] else ""
  {
    var cs := InsertColumns(t, columns);
    var f := Writable(t, columns, input);
    assert InsertPlan(t, columns, input).value.params == InsertParams(cs, f);
    InsertParamsExact(cs, f);
    forall i | 0 <= i < |cs|
      ensures Bound(f, cs[i]) == if HasKey(input, cs[i]) then input.values[cs[i]] else ""
    {
      assert cs[i] in columns && cs[i] != t.primaryKey;
    }
  }

  /** With no repeated column in the schema, the bound names follow the schema's order. */
  lemma InsertParamsFollowSchema(t: Table, columns: seq<string>, input: PhpArray<string>)
    requires !NothingWritable(t, columns, input) && Distinct(columns)
    ensures InsertPlan(t, columns, input).value.params.keys == Wrap(InsertColumns(t, columns), ":", "")
  {
    InsertParamsOrder(InsertColumns(t, columns), Writable(t, columns, input));
  }

  /** Whether the last listed column ends in a comma, which `rtrim` would also strip. */
  predicate EndsInComma(cs: seq<string>) {
    |cs| > 0 && |cs[|cs| - 1]| > 0 && cs[|cs| - 1][|cs[|cs| - 1]| - 1] == ','
  }

  /**
   * The INSERT text is `INSERT INTO `T` (`c1`,...,`cn`) VALUES (:c1,...,:cn)`
   * over the non-key columns in schema order.
   */
  lemma InsertSqlForm(t: Table, columns: seq<string>, input: PhpArray<string>)
    requires !NothingWritable(t, columns, input)
    requires !EndsInComma(InsertColumns(t, columns))
    ensures InsertPlan(t, columns, input).value.sql ==
      "INSERT INTO `" + t.name + "` (" + Join(",", Wrap(InsertColumns(t, columns), "`", "`"))
        + ") VALUES (" + Join(",", Wrap(InsertColumns(t, columns), ":", "")) + ")"
  {
    WritableEmpty(t, columns, input);
    InsertColumnsNonEmpty(t, columns, input);
    PlaceholdersUntrimmed(InsertColumns(t, columns));
  }

  /** `rtrim` leaves the placeholder list alone unless the last column name ends in a comma. */
  lemma PlaceholdersUntrimmed(cs: seq<string>)
    requires cs != [] && !EndsInComma(cs)
    ensures RTrim(Join(",", Wrap(cs, ":", "")), {','}) == Join(",", Wrap(cs, ":", ""))
  {
    var ph := Wrap(cs, ":", "");
    var last := ph[|ph| - 1];
    assert last == ":" + cs[|cs| - 1];
    assert |last| > 0 && last[|last| - 1] != ',';
    JoinLast(",", ph);
  }

  /** Two prepared inserts into one table have the same text, whatever inputs they were given. */
  lemma InsertSqlIgnoresInput(t: Table, columns: seq<string>, a: PhpArray<string>, b: PhpArray<string>)
    requires !NothingWritable(t, columns, a) && !NothingWritable(t, columns, b)
    ensures InsertPlan(t, columns, a).value.sql == InsertPlan(t, columns, b).value.sql
  {
  }

  // ------------------------------------------------------------------- update

  /** `UPDATE T SET `k1` = ?, ..., `km` = ? WHERE pk = ?`. */
  function UpdateSql(t: Table, keys: seq<string>): string {
    "UPDATE " + t.name + " SET " + Join(", ", Wrap(keys, "`", "` = ?")) + " WHERE " + t.primaryKey + " = ?"
  }

  /** What `update` prepares and the positional parameters it executes with, or its exception. */
  function UpdatePlan(t: Table, columns: seq<string>, id: string, params: PhpArray<string>): (r: Result<Prepared<seq<string>>>)
    ensures r.Err? <==> NothingWritable(t, columns, params)
    ensures r.Err? ==> r.error == PdoException("No valid columns set for update")
  {
    WritableEmpty(t, columns, params);
    var f := Writable(t, columns, params);
    if f.keys == [] then Err(PdoException("No valid columns set for update"))
    else Ok(Prepared(UpdateSql(t, f.keys), Values(f) + [id]))
  }

  /** One step of the SET loop. */
  lemma SetLoopStep(keys: seq<string>, i: nat)
    requires i < |keys|
    ensures JoinedThen(", ", Wrap(keys[..i + 1], "`", "` = ?")) ==
      JoinedThen(", ", Wrap(keys[..i], "`", "` = ?")) + ("`" + keys[i] + "` = ?, ")
  {
    assert keys[..i + 1] == keys[..i] + [keys[i]];
    var x := "`" + keys[i] + "` = ?";
    var j0 := JoinedThen(", ", Wrap(keys[..i], "`", "` = ?"));
    WrapSnoc(keys[..i], keys[i], "`", "` = ?");
    JoinedThenSnoc(", ", Wrap(keys[..i], "`", "` = ?"), x);
    AppendAssoc(j0, x, ", ");
    AppendAssoc("`" + keys[i], "` = ?", ", ");
  }

  /** `rtrim(..., ', ')` after the SET loop removes just the last separator. */
  lemma SetListTrimmed(head: string, keys: seq<string>)
    requires keys != []
    ensures RTrim(head + JoinedThen(", ", Wrap(keys, "`", "` = ?")), {',', ' '}) == head + Join(", ", Wrap(keys, "`", "` = ?"))
  {
    var assignments := Join(", ", Wrap(keys, "`", "` = ?"));
    JoinLast(", ", Wrap(keys, "`", "` = ?"));
    RTrimDropsTrimmable(assignments, ", ", {',', ' '});
    RTrimConcat(head, assignments + ", ", {',', ' '});
  }

  /** `update` up to `execute`: filtering, the empty-input guard and the SET loop. */
  method Update(t: Table, columns: seq<string>, id: string, params: PhpArray<string>) returns (r: Result<Prepared<seq<string>>>)
    ensures r == UpdatePlan(t, columns, id, params)
  {
    var filterParams := FilterColumns(params, columns);
    if HasKey(filterParams, t.primaryKey) {
      filterParams := Unset(filterParams, t.primaryKey);
    }
    assert filterParams == Writable(t, columns, params);
    if filterParams.keys == [] {
      return Err(PdoException("No valid columns set for update"));
    }
    var keys := filterParams.keys;
    var query := "UPDATE " + t.name + " SET ";
    ghost var head := query;
    for i := 0 to |keys|
      invariant query == head + JoinedThen(", ", Wrap(keys[..i], "`", "` = ?"))
    {
      SetLoopStep(keys, i);
      AppendAssoc(head, JoinedThen(", ", Wrap(keys[..i], "`", "` = ?")), "`" + keys[i] + "` = ?, ");
      query := query + ("`" + keys[i] + "` = ?, ");
    }
    assert keys[..|keys|] == keys;
    SetListTrimmed(head, keys);
    query := RTrim(query, {',', ' '}) + " WHERE " + t.primaryKey + " = ?";
    r := Ok(Prepared(query, Values(filterParams) + [id]));
  }

  /** A prepared UPDATE sets exactly the supplied non-key table columns, in the caller's order. */
  lemma UpdateSetsSuppliedColumns(t: Table, columns: seq<string>, id: string, params: PhpArray<string>)
    requires UpdatePlan(t, columns, id, params).Ok?
    ensures var keys := Without(KeysIn(params.keys, columns), t.primaryKey);
      && UpdatePlan(t, columns, id, params).value.sql == UpdateSql(t, keys)
      && (forall k :: k in keys <==> HasKey(params, k) && k in columns && k != t.primaryKey)
  {
  }

  /** It binds the values of the columns it sets, in the same order, and then the id. */
  lemma UpdateBindsValuesThenId(t: Table, columns: seq<string>, id: string, params: PhpArray<string>)
    requires UpdatePlan(t, columns, id, params).Ok?
    ensures var keys := Without(KeysIn(params.keys, columns), t.primaryKey);
      var bound := UpdatePlan(t, columns, id, params).value.params;
      && |bound| == |keys| + 1
      && (forall i :: 0 <= i < |keys| ==> keys[i] in params.values && bound[i] == params.values[keys[i]])
      && bound[|keys|] == id
  {
    var f := Writable(t, columns, params);
    assert f.keys == Without(KeysIn(params.keys, columns), t.primaryKey);
    var bound := UpdatePlan(t, columns, id, params).value.params;
    assert bound == Values(f) + [id];
    forall i | 0 <= i < |f.keys| ensures f.keys[i] in params.values && bound[i] == params.values[f.keys[i]] {
      assert HasKey(f, f.keys[i]);
      assert bound[i] == Values(f)[i];
    }
    assert bound[|f.keys|] == id;
  }

  /** The SET list keeps the caller's order: of two supplied columns, the earlier one is set first. */
  lemma UpdateKeepsCallerOrder(t: Table, columns: seq<string>, id: string, params: PhpArray<string>, i: nat, j: nat)
    requires i < j < |params.keys|
    requires params.keys[i] in columns && params.keys[i] != t.primaryKey
    requires params.keys[j] in columns && params.keys[j] != t.primaryKey
    ensures UpdatePlan(t, columns, id, params).Ok?
    ensures var keys := Without(KeysIn(params.keys, columns), t.primaryKey);
      exists p, q :: 0 <= p < q < |keys| && keys[p] == params.keys[i] && keys[q] == params.keys[j]
  {
    assert HasKey(params, params.keys[i]);
    var ks := KeysIn(params.keys, columns);
    KeysInKeepsOrder(params.keys, columns, i, j);
    var p, q :| 0 <= p < q < |ks| && ks[p] == params.keys[i] && ks[q] == params.keys[j];
    WithoutKeepsOrder(ks, t.primaryKey, p, q);
  }

  // ------------------------------------------------------------------ lookups

  /** Whether the primary key's name lowercases to `id`, which asks for numeric keys. */
  predicate IsIdName(name: string) {
    Lower(name) == "id"
  }

  /** The guard at the head of `get`. */
  predicate RejectsPk(t: Table, pk: Mixed) {
    IsIdName(t.primaryKey) && !CtypeDigit(pk)
  }

  function NotNumeric(t: Table): Error {
    PdoException(t.primaryKey + " must be a numerical value")
  }

  /** `$a[$k]`: the value stored under `k`, or null when the key is missing. */
  function Index(a: PhpArray<Mixed>, k: string): Mixed {
    if HasKey(a, k) then a.values[k] else Null
  }

  /** `array($v)`: a one-element list, whose key is 0. */
  function Single(v: Mixed): PhpArray<Mixed> {
    OrderedMap(["0"], map["0" := v])
  }

  /** `getResults` returns every matching row; `getRow` the first one, or `false`. */
  function Fetch(matching: seq<Row>, all: bool): Fetched {
    if all then RowSet(matching) else if matching == [] then NoRow else OneRow(matching[0])
  }

  /** PHP truthiness of what was fetched: an empty row set and `false` are falsy. */
  predicate Truthy(f: Fetched) {
    match f
    case RowSet(rows) => rows != []
    case OneRow(_) => true
    case NoRow => false
  }

  lemma FetchTruthy(matching: seq<Row>, all: bool)
    ensures Truthy(Fetch(matching, all)) <==> matching != []
    ensures !all && matching != [] ==> Fetch(matching, all) == OneRow(matching[0])
  {
  }

  /** The SELECT `getBy` builds for `column = ?`. */
  lemma SelectByColumn(t: Table, column: string, parameters: PhpArray<Mixed>, all: bool, matching: seq<Row>)
    ensures GetByQuery(t, column + " = ?", parameters, all, matching) ==
      Lookup("SELECT * FROM `" + t.name + "` WHERE " + column + " = ?", parameters, Fetch(matching, all))
  {
    var prefix := "SELECT * FROM `" + t.name + "` WHERE ";
    assert prefix + (column + " = ?") == prefix + column + " = ?";
  }

  /** `getByQuery`: a SELECT with the caller's raw WHERE text, which no check looks at. */
  function GetByQuery(t: Table, where: string, parameters: PhpArray<Mixed>, all: bool, matching: seq<Row>): Lookup {
    Lookup("SELECT * FROM `" + t.name + "` WHERE " + where, parameters, Fetch(matching, all))
  }

  /**
   * `getBy` as written: the primary-key check reads `$parameter[PK]`, and a
   * failing value is re-dispatched as `get($parameter)`, an array.
   */
  function GetByAsWritten(t: Table, columns: seq<string>, column: string, parameter: PhpArray<Mixed>,
                          all: bool, matching: seq<Row>): (r: Result<Lookup>)
    decreases 1
  {
    if column !in columns then Err(PdoException("Unknown column " + column))
    else if column == t.primaryKey && IsIdName(t.primaryKey) && !CtypeDigit(Index(parameter, t.primaryKey)) then
      GetAsWritten(t, columns, Array, matching)
    else Ok(GetByQuery(t, column + " = ?", parameter, all, matching))
  }

  /** `get` as written, over `getBy` as written. */
  function GetAsWritten(t: Table, columns: seq<string>, pk: Mixed, matching: seq<Row>): (r: Result<Lookup>)
    ensures RejectsPk(t, pk) ==> r == Err(NotNumeric(t))
    ensures r.Ok? ==> Truthy(r.value.fetched)
    decreases if RejectsPk(t, pk) then 0 else 2
  {
    if RejectsPk(t, pk) then Err(NotNumeric(t))
    else
      match GetByAsWritten(t, columns, t.primaryKey, Single(pk), false, matching)
      case Err(e) => Err(e)
      case Ok(l) => if Truthy(l.fetched) then Ok(l) else Err(PdoException("Record not found"))
  }

  /**
   * `getBy` rejects unknown columns; for a numeric primary key it sends a
   * non-digit value to `get`'s numeric guard; otherwise it selects
   * `SELECT * FROM `T` WHERE column = ?` with the caller's parameters.
   */
  lemma GetByAsWrittenOutcome(t: Table, columns: seq<string>, column: string, parameter: PhpArray<Mixed>,
                              all: bool, matching: seq<Row>)
    ensures column !in columns ==>
      GetByAsWritten(t, columns, column, parameter, all, matching) == Err(PdoException("Unknown column " + column))
    ensures column in columns && column == t.primaryKey && IsIdName(column) && !CtypeDigit(Index(parameter, column)) ==>
      GetByAsWritten(t, columns, column, parameter, all, matching) == Err(NotNumeric(t))
    ensures column in columns && !(column == t.primaryKey && IsIdName(column) && !CtypeDigit(Index(parameter, column))) ==>
      GetByAsWritten(t, columns, column, parameter, all, matching) ==
        Ok(Lookup("SELECT * FROM `" + t.name + "` WHERE " + column + " = ?", parameter, Fetch(matching, all)))
  {
    SelectByColumn(t, column, parameter, all, matching);
  }

  /** Every SELECT `getBy` issues names a table column. */
  lemma GetByAsWrittenOnlyKnownColumns(t: Table, columns: seq<string>, column: string, parameter: PhpArray<Mixed>,
                                       all: bool, matching: seq<Row>)
    requires GetByAsWritten(t, columns, column, parameter, all, matching).Ok?
    ensures column in columns
  {
  }

  /**
   * The defect: `get` passes `array($pk)`, whose only key is 0, and `getBy`
   * looks the value up under the primary key's name. With a key named `id`
   * the lookup yields null, null is not digits, and the re-dispatched `get`
   * rejects the array, so `get` raises for every value, digits included.
   */
  lemma GetAsWrittenRejectsEveryValue(t: Table, columns: seq<string>, pk: Mixed, matching: seq<Row>)
    requires IsIdName(t.primaryKey) && t.primaryKey in columns
    ensures GetAsWritten(t, columns, pk, matching) == Err(NotNumeric(t))
  {
    if !RejectsPk(t, pk) {
      assert t.primaryKey != "0" by {
        assert |Lower(t.primaryKey)| == 2;
      }
      assert Index(Single(pk), t.primaryKey) == Null;
      assert GetByAsWritten(t, columns, t.primaryKey, Single(pk), false, matching) == Err(NotNumeric(t));
    }
  }

  /** On a key that is not named `id`, `get` as written works: it selects by the key. */
  lemma GetAsWrittenOtherKey(t: Table, columns: seq<string>, pk: Mixed, matching: seq<Row>)
    requires !IsIdName(t.primaryKey) && t.primaryKey in columns
    ensures GetAsWritten(t, columns, pk, matching) ==
      if matching == [] then Err(PdoException("Record not found"))
      else Ok(Lookup("SELECT * FROM `" + t.name + "` WHERE " + t.primaryKey + " = ?", Single(pk), OneRow(matching[0])))
  {
    SelectByColumn(t, t.primaryKey, Single(pk), false, matching);
  }

  /**
   * `getBy` corrected, in two places: the value checked is `$parameter[0]`,
   * the one the `column = ?` placeholder binds, and a failing value is passed
   * to `get` as `$parameter[0]` rather than as the whole `$parameter` array.
   * Either way `get` raises the same numeric error.
   */
  function GetBy(t: Table, columns: seq<string>, column: string, parameter: PhpArray<Mixed>,
                 all: bool, matching: seq<Row>): (r: Result<Lookup>)
    decreases 1
  {
    if column !in columns then Err(PdoException("Unknown column " + column))
    else if column == t.primaryKey && IsIdName(t.primaryKey) && !CtypeDigit(Index(parameter, "0")) then
      Get(t, columns, Index(parameter, "0"), matching)
    else Ok(GetByQuery(t, column + " = ?", parameter, all, matching))
  }

  /** `get` over the corrected `getBy`. */
  function Get(t: Table, columns: seq<string>, pk: Mixed, matching: seq<Row>): (r: Result<Lookup>)
    ensures RejectsPk(t, pk) ==> r == Err(NotNumeric(t))
    ensures r.Ok? ==> Truthy(r.value.fetched)
    decreases if RejectsPk(t, pk) then 0 else 2
  {
    if RejectsPk(t, pk) then Err(NotNumeric(t))
    else
      match GetBy(t, columns, t.primaryKey, Single(pk), false, matching)
      case Err(e) => Err(e)
      case Ok(l) => if Truthy(l.fetched) then Ok(l) else Err(PdoException("Record not found"))
  }

  /**
   * With the correction, `get` on an acceptable key selects the row by the
   * primary key and returns the first match, or raises "Record not found".
   */
  lemma GetSelectsByPrimaryKey(t: Table, columns: seq<string>, pk: Mixed, matching: seq<Row>)
    requires t.primaryKey in columns && !RejectsPk(t, pk)
    ensures Get(t, columns, pk, matching) ==
      if matching == [] then Err(PdoException("Record not found"))
      else Ok(Lookup("SELECT * FROM `" + t.name + "` WHERE " + t.primaryKey + " = ?", Single(pk), OneRow(matching[0])))
  {
    assert Index(Single(pk), "0") == pk;
    SelectByColumn(t, t.primaryKey, Single(pk), false, matching);
  }

  /** The corrected `getBy` keeps the guards: unknown columns, and non-digit values for an `id` key. */
  lemma GetByOutcome(t: Table, columns: seq<string>, column: string, parameter: PhpArray<Mixed>,
                     all: bool, matching: seq<Row>)
    ensures column !in columns ==>
      GetBy(t, columns, column, parameter, all, matching) == Err(PdoException("Unknown column " + column))
    ensures column in columns && column == t.primaryKey && IsIdName(column) && !CtypeDigit(Index(parameter, "0")) ==>
      GetBy(t, columns, column, parameter, all, matching) == Err(NotNumeric(t))
    ensures column in columns && !(column == t.primaryKey && IsIdName(column) && !CtypeDigit(Index(parameter, "0"))) ==>
      GetBy(t, columns, column, parameter, all, matching) ==
        Ok(Lookup("SELECT * FROM `" + t.name + "` WHERE " + column + " = ?", parameter, Fetch(matching, all)))
  {
    SelectByColumn(t, column, parameter, all, matching);
  }

  // ------------------------------------------------------------------- delete

  function DeleteSql(t: Table): string {
    "DELETE FROM " + t.name + " WHERE " + t.primaryKey + " = :pk"
  }

  /** The shared tail of `delete`, after `get` has answered. */
  function DeleteAfter(t: Table, id: int, found: Result<Lookup>): Result<DeleteOutcome> {
    match found
    case Err(e) => Err(e)
    case Ok(l) => if !Truthy(l.fetched) then Ok(ReturnedFalse) else Ok(Deleted(l, DeleteSql(t), id))
  }

  /**
   * `delete` as written: `id` is what `intval` produced, and `get`, as
   * written, receives that integer.
   */
  function DeleteAsWritten(t: Table, columns: seq<string>, id: int, matching: seq<Row>): Result<DeleteOutcome> {
    DeleteAfter(t, id, GetAsWritten(t, columns, Int(id), matching))
  }

  /** As written, with a key named `id`, `delete` raises the numeric error for every id, through the `getBy` defect at src/BaseModel.php:290. */
  lemma DeleteAsWrittenRejectsEveryId(t: Table, columns: seq<string>, id: int, matching: seq<Row>)
    requires IsIdName(t.primaryKey) && t.primaryKey in columns
    ensures DeleteAsWritten(t, columns, id, matching) == Err(NotNumeric(t))
  {
    GetAsWrittenRejectsEveryValue(t, columns, Int(id), matching);
  }

  /**
   * `delete` with only the `getBy` defect corrected: `get` still receives the
   * integer that `intval` produced.
   */
  function DeleteWithIntId(t: Table, columns: seq<string>, id: int, matching: seq<Row>): Result<DeleteOutcome> {
    DeleteAfter(t, id, Get(t, columns, Int(id), matching))
  }

  /**
   * The second defect: `ctype_digit` reads an integer up to 255 as a character
   * code, so for a key named `id` the ids 0 to 47 and 58 to 255 are refused.
   */
  lemma DeleteWithIntIdRejectsSmallIds(t: Table, columns: seq<string>, id: int, matching: seq<Row>)
    requires IsIdName(t.primaryKey) && 0 <= id <= 255 && !(48 <= id <= 57)
    ensures DeleteWithIntId(t, columns, id, matching) == Err(NotNumeric(t))
  {
  }

  /** `delete` corrected: `get` receives the integer's decimal text. */
  function Delete(t: Table, columns: seq<string>, id: int, matching: seq<Row>): Result<DeleteOutcome> {
    DeleteAfter(t, id, Get(t, columns, Str(IntString(id)), matching))
  }

  /** `return false` is never reached: `get` either yields a row or raises. */
  lemma DeleteNeverReturnsFalse(t: Table, columns: seq<string>, id: int, matching: seq<Row>)
    ensures Delete(t, columns, id, matching) != Ok(ReturnedFalse)
    ensures DeleteWithIntId(t, columns, id, matching) != Ok(ReturnedFalse)
    ensures DeleteAsWritten(t, columns, id, matching) != Ok(ReturnedFalse)
  {
  }

  /**
   * With the corrections, deleting an id that matches a row issues
   * `DELETE FROM T WHERE pk = :pk` bound to the id; a missing row raises
   * "Record not found" and issues no DELETE. For a key named `id` the id must
   * not be negative (see `DeleteRejectsNegativeIds`).
   */
  lemma DeleteRemovesExistingRow(t: Table, columns: seq<string>, id: int, matching: seq<Row>)
    requires t.primaryKey in columns && (id >= 0 || !IsIdName(t.primaryKey))
    ensures matching == [] ==> Delete(t, columns, id, matching) == Err(PdoException("Record not found"))
    ensures matching != [] ==>
      && Delete(t, columns, id, matching).Ok?
      && Delete(t, columns, id, matching).value.Deleted?
      && Delete(t, columns, id, matching).value.sql == "DELETE FROM " + t.name + " WHERE " + t.primaryKey + " = :pk"
      && Delete(t, columns, id, matching).value.pk == id
      && Delete(t, columns, id, matching).value.lookup.fetched == OneRow(matching[0])
  {
    if id >= 0 {
      DecimalIsDigits(id);
    }
    GetSelectsByPrimaryKey(t, columns, Str(IntString(id)), matching);
  }

  /** For a key named `id`, a negative id is not all digits, so `delete` raises the numeric error. */
  lemma DeleteRejectsNegativeIds(t: Table, columns: seq<string>, id: int, matching: seq<Row>)
    requires IsIdName(t.primaryKey) && id < 0
    ensures Delete(t, columns, id, matching) == Err(NotNumeric(t))
  {
    assert IntString(id)[0] == '-';
  }
}
