/**
  The query assembly of models/job.js: the WHERE text Job.findAll builds from
  its filters, the parameterized UPDATE of Job.update, and the NotFoundError
  that Job.get, Job.update and Job.remove throw when their query returns no
  row. The database is a function from the query sent to the rows it returns.
*/
module JobModel {
  import opened Wrappers
  import opened Js
  import opened ExpressError
  import Sql

  /** A query as db.query receives it: its text and its positional parameters. */
  datatype Query = Query(text: string, params: seq<JsValue>)

  /** The eleven spaces that open the continuation lines of the query
      templates of findAll, get and remove (models/job.js:59-60, 74-75, 123-125). */
  const QueryIndent: string := "           "

  /** The twenty-two spaces that open the continuation lines of the UPDATE
      template of update (models/job.js:104-106). */
  const UpdateIndent: string := QueryIndent + QueryIndent

  // ----- findAll -----------------------------------------------------------------

  /** filters["title"], filters["minSalary"] and filters["hasEquity"]; a
      missing one is undefined. */
  datatype Filters = Filters(title: JsValue, minSalary: JsValue, hasEquity: JsValue)

  /** The filter a condition comes from. */
  datatype FilterKind = Title | MinSalary | HasEquity

  /** A condition findAll appends: its kind and its SQL text, into which the
      filter's value is interpolated. */
  datatype Condition = Condition(kind: FilterKind, text: string)

  function TitleCondition(title: JsValue): Condition
  {
    Condition(Title, "title ILIKE '%" + ToJsString(title) + "%'")
  }

  function MinSalaryCondition(minSalary: JsValue): Condition
  {
    Condition(MinSalary, "salary >= " + ToJsString(minSalary))
  }

  const EquityCondition: Condition := Condition(HasEquity, "equity > 0")

  /** The connective a condition is appended with: the title's has two
      trailing spaces. */
  function Connective(c: Condition): string
  {
    if c.kind == Title then " AND  " else " AND "
  }

  /** The five characters slice(0, -5) cuts from a connective ... */
  function Cut(c: Condition): string
  {
    if c.kind == Title then "AND  " else " AND "
  }

  /** ... and what is left of it. */
  function Trail(c: Condition): string
  {
    if c.kind == Title then " " else ""
  }

  /** A condition followed by its connective. */
  function Piece(c: Condition): string
  {
    c.text + Connective(c)
  }

  /** The conditions of the truthy filters, in the fixed order title,
      minSalary, hasEquity; none when filters is undefined. */
  function ActiveConditions(filters: Option<Filters>): seq<Condition>
  {
    match filters
    case None => []
    case Some(f) =>
      (if Truthy(f.title) then [TitleCondition(f.title)] else [])
      + (if Truthy(f.minSalary) then [MinSalaryCondition(f.minSalary)] else [])
      + (if Truthy(f.hasEquity) then [EquityCondition] else [])
  }

  /** What findAll appends after "WHERE " for conds: each condition followed
      by its connective. */
  function Pieces(conds: seq<Condition>): string
  {
    if conds == [] then "" else Piece(conds[0]) + Pieces(conds[1..])
  }

  /** The conditions separated by their connectives, the last one followed
      by what is left of its connective after the cut. */
  function Rendered(conds: seq<Condition>): string
    requires conds != []
  {
    if |conds| == 1 then conds[0].text + Trail(conds[0])
    else conds[0].text + Connective(conds[0]) + Rendered(conds[1..])
  }

  /** The text findAll places after FROM jobs: "W" when no filter is active. */
  function FilterClause(filters: Option<Filters>): string
  {
    var conds := ActiveConditions(filters);
    if conds == [] then "W" else "WHERE " + Rendered(conds)
  }

  /** The SELECT findAll sends. */
  function FindAllQuery(filter: string): Query
  {
    Query("SELECT id, title, salary, equity, company_handle\n" + QueryIndent + "FROM jobs " + filter + " \n"
      + QueryIndent + "ORDER BY title ", [])
  }

  /** The accumulated text is the rendered conditions followed by the five
      characters of the last connective that slice(0, -5) removes. */
  lemma {:induction false} PiecesEndWithCut(conds: seq<Condition>)
    requires conds != []
    ensures Pieces(conds) == Rendered(conds) + Cut(conds[|conds| - 1])
    decreases |conds|
  {
    var c := conds[0];
    var rest := conds[1..];
    var head := c.text + Connective(c);
    assert Pieces(conds) == head + Pieces(rest);
    if |conds| == 1 {
      assert Pieces(rest) == "";
      assert head + "" == head;
      assert Connective(c) == Trail(c) + Cut(c);
      AppendAssoc(c.text, Trail(c), Cut(c));
    } else {
      PiecesEndWithCut(rest);
      var last := conds[|conds| - 1];
      assert last == rest[|rest| - 1];
      AppendAssoc(head, Rendered(rest), Cut(last));
    }
  }

  /** Appending one more condition to the accumulated text. */
  lemma {:induction false} PiecesSnoc(conds: seq<Condition>, c: Condition)
    ensures Pieces(conds + [c]) == Pieces(conds) + Piece(c)
    decreases |conds|
  {
    if conds == [] {
      assert ([] + [c])[1..] == [];
      assert Piece(c) + "" == Piece(c);
    } else {
      assert (conds + [c])[1..] == conds[1..] + [c];
      PiecesSnoc(conds[1..], c);
      AppendAssoc(Piece(conds[0]), Pieces(conds[1..]), Piece(c));
    }
  }

  /** The text findAll appends for a truthy title is the title condition's piece. */
  lemma AppendTitle(fs: string, added: seq<Condition>, v: JsValue)
    requires fs == "WHERE " + Pieces(added)
    ensures fs + "title ILIKE '%" + ToJsString(v) + "%' AND  " == "WHERE " + Pieces(added + [TitleCondition(v)])
  {
    var c := TitleCondition(v);
    var a, x := "title ILIKE '%", ToJsString(v);
    PiecesSnoc(added, c);
    AppendAssoc("WHERE ", Pieces(added), Piece(c));
    assert "%' AND  " == "%'" + " AND  ";
    AppendAssoc(fs + a + x, "%'", " AND  ");
    AppendAssoc(fs, a, x);
    AppendAssoc(fs, a + x, "%'");
    AppendAssoc(fs, a + x + "%'", " AND  ");
  }

  /** The text findAll appends for a truthy minSalary is its condition's piece. */
  lemma AppendMinSalary(fs: string, added: seq<Condition>, v: JsValue)
    requires fs == "WHERE " + Pieces(added)
    ensures fs + "salary >= " + ToJsString(v) + " AND " == "WHERE " + Pieces(added + [MinSalaryCondition(v)])
  {
    var c := MinSalaryCondition(v);
    PiecesSnoc(added, c);
    AppendAssoc("WHERE ", Pieces(added), Piece(c));
    AppendAssoc(fs, "salary >= ", ToJsString(v));
    AppendAssoc(fs, "salary >= " + ToJsString(v), " AND ");
  }

  /** The text findAll appends for a truthy hasEquity is its condition's piece. */
  lemma AppendEquity(fs: string, added: seq<Condition>)
    requires fs == "WHERE " + Pieces(added)
    ensures fs + "equity > 0 AND " == "WHERE " + Pieces(added + [EquityCondition])
  {
    PiecesSnoc(added, EquityCondition);
    AppendAssoc("WHERE ", Pieces(added), Piece(EquityCondition));
    assert Piece(EquityCondition) == "equity > 0 AND ";
  }

  /** The filterStatement findAll accumulates: "WHERE " and, for each truthy
      filter in turn, its condition and connective. */
  method FilterStatement(filters: Option<Filters>) returns (filterStatement: string)
    ensures filterStatement == "WHERE " + Pieces(ActiveConditions(filters))
  {
    filterStatement := "WHERE ";
    if filters.Some? {
      var f := filters.value;
      ghost var added: seq<Condition> := [];
      if Truthy(f.title) {
        AppendTitle(filterStatement, added, f.title);
        filterStatement := filterStatement + "title ILIKE '%" + ToJsString(f.title) + "%' AND  ";
        added := added + [TitleCondition(f.title)];
      }
      if Truthy(f.minSalary) {
        AppendMinSalary(filterStatement, added, f.minSalary);
        filterStatement := filterStatement + "salary >= " + ToJsString(f.minSalary) + " AND ";
        added := added + [MinSalaryCondition(f.minSalary)];
      }
      if Truthy(f.hasEquity) {
        AppendEquity(filterStatement, added);
        filterStatement := filterStatement + "equity > 0 AND ";
        added := added + [EquityCondition];
      }
      assert added == ActiveConditions(filters);
    }
  }

  /** Job.findAll(filters), with db standing for the database. */
  method FindAll<R>(filters: Option<Filters>, db: Query -> seq<R>) returns (rows: seq<R>)
    ensures rows == db(FindAllQuery(FilterClause(filters)))
  {
    var filterStatement := FilterStatement(filters);
    var filter := SliceDropEnd(filterStatement, 5);
    CutLastConnective(ActiveConditions(filters));
    rows := db(FindAllQuery(filter));
  }

  /** slice(0, -5) of the accumulated text is the filter text. */
  lemma CutLastConnective(conds: seq<Condition>)
    ensures SliceDropEnd("WHERE " + Pieces(conds), 5)
      == (if conds == [] then "W" else "WHERE " + Rendered(conds))
  {
    if conds != [] {
      PiecesEndWithCut(conds);
      var last := conds[|conds| - 1];
      AppendAssoc("WHERE ", Rendered(conds), Cut(last));
    }
  }

  function Texts(conds: seq<Condition>): seq<string>
  {
    seq(|conds|, i requires 0 <= i < |conds| => conds[i].text)
  }

  /** Without a title condition, the rendering is the plain " AND " join. */
  lemma {:induction false} RenderedIsJoin(conds: seq<Condition>)
    requires conds != []
    requires forall i :: 0 <= i < |conds| ==> conds[i].kind != Title
    ensures Rendered(conds) == Sql.Join(Texts(conds), " AND ")
    decreases |conds|
  {
    if |conds| > 1 {
      RenderedIsJoin(conds[1..]);
      assert Texts(conds)[1..] == Texts(conds[1..]);
    }
  }

  /** Only the first active condition can be the title's. */
  lemma TitleComesFirst(filters: Option<Filters>)
    ensures var conds := ActiveConditions(filters);
      forall i :: 1 <= i < |conds| ==> conds[i].kind != Title
  {
  }

  /** The rendering against a plain " AND " join: a title condition, which
      can only come first, is separated from the next by " AND  " and, when it
      is the only condition, keeps a trailing space. */
  lemma RenderedAgainstJoin(conds: seq<Condition>)
    requires conds != []
    requires forall i :: 1 <= i < |conds| ==> conds[i].kind != Title
    ensures conds[0].kind != Title ==> Rendered(conds) == Sql.Join(Texts(conds), " AND ")
    ensures conds[0].kind == Title ==>
      Rendered(conds) == conds[0].text
        + (if |conds| == 1 then " " else " AND  " + Sql.Join(Texts(conds[1..]), " AND "))
  {
    if conds[0].kind != Title {
      RenderedIsJoin(conds);
    } else if |conds| > 1 {
      RenderedIsJoin(conds[1..]);
    }
  }

  /** The filter text against a plain " AND " join of the active conditions:
      "W" when no filter is active, otherwise "WHERE " and the rendering
      described by RenderedAgainstJoin. */
  lemma FilterClauseIsWhereJoin(filters: Option<Filters>)
    ensures ActiveConditions(filters) == [] ==> FilterClause(filters) == "W"
    ensures ActiveConditions(filters) != [] ==> StartsWith(FilterClause(filters), "WHERE ")
    ensures var conds := ActiveConditions(filters);
      conds != [] && conds[0].kind != Title ==>
        FilterClause(filters) == "WHERE " + Sql.Join(Texts(conds), " AND ")
    ensures var conds := ActiveConditions(filters);
      conds != [] && conds[0].kind == Title ==>
        FilterClause(filters) == "WHERE " + conds[0].text
          + (if |conds| == 1 then " " else " AND  " + Sql.Join(Texts(conds[1..]), " AND "))
  {
    var conds := ActiveConditions(filters);
    if conds != [] {
      var r := "WHERE " + Rendered(conds);
      assert r[..6] == "WHERE ";
      TitleComesFirst(filters);
      RenderedAgainstJoin(conds);
      if conds[0].kind == Title {
        AppendAssoc("WHERE ", conds[0].text,
          if |conds| == 1 then " " else " AND  " + Sql.Join(Texts(conds[1..]), " AND "));
      }
    }
  }

  /** No active filter, including minSalary 0 and hasEquity false, gives "W". */
  lemma FilterExampleNone()
    ensures FilterClause(None) == "W"
    ensures FilterClause(Some(Filters(Undefined, Num(0), Bool(false)))) == "W"
  {
    assert ActiveConditions(Some(Filters(Undefined, Num(0), Bool(false)))) == [];
  }

  /** The decimal text of 40, as the examples below use it. */
  lemma Forty()
    ensures ToJsString(Num(40)) == "40"
  {
    assert DigitChar(4) == '4';
    assert DigitChar(0) == '0';
    assert NatToDecimal(4) == "4";
    assert NatToDecimal(40) == NatToDecimal(4) + [DigitChar(0)];
  }

  /** minSalary 40 alone: its connective is cut off entirely. */
  lemma FilterExampleSalary()
    ensures FilterClause(Some(Filters(Undefined, Num(40), Undefined))) == "WHERE " + "salary >= 40"
  {
    var c := MinSalaryCondition(Num(40));
    assert ActiveConditions(Some(Filters(Undefined, Num(40), Undefined))) == [c];
    assert c.text == "salary >= 40" by {
      Forty();
    }
    assert Rendered([c]) == c.text + "";
  }

  /** A lone title keeps one trailing space. */
  lemma FilterExampleTitle()
    ensures FilterClause(Some(Filters(Str("Title 1"), Undefined, Undefined)))
      == "WHERE " + "title ILIKE '%Title 1%'" + " "
  {
    var f := Some(Filters(Str("Title 1"), Undefined, Undefined));
    var c := TitleCondition(Str("Title 1"));
    assert ActiveConditions(f) == [c];
    assert c.text == "title ILIKE '%Title 1%'";
    assert Rendered([c]) == c.text + " ";
  }

  /** minSalary 40 and hasEquity true, joined by " AND ". */
  lemma FilterExampleSalaryAndEquity()
    ensures FilterClause(Some(Filters(Undefined, Num(40), Bool(true))))
      == "WHERE " + ("salary >= 40" + " AND " + "equity > 0")
  {
    var f := Some(Filters(Undefined, Num(40), Bool(true)));
    var c := MinSalaryCondition(Num(40));
    var conds := [c, EquityCondition];
    assert ActiveConditions(f) == conds;
    assert c.text == "salary >= 40" by {
      Forty();
    }
    assert conds[1..] == [EquityCondition];
    assert Rendered([EquityCondition]) == "equity > 0" + "";
  }

  // ----- get, update, remove ---------------------------------------------------

  /** result.rows[0]: undefined when no row came back. */
  function FirstRow<R>(rows: seq<R>): Option<R>
  {
    if rows == [] then None else Some(rows[0])
  }

  function NoJob(id: JsValue): ErrorValue
  {
    NotFoundError("No job: " + ToJsString(id))
  }

  /** The SELECT Job.get sends. */
  function GetQuery(id: JsValue): Query
  {
    Query("SELECT id, title, salary, equity, company_handle\n" + QueryIndent + "FROM jobs\n" + QueryIndent + "WHERE id = $1", [id])
  }

  /** The DELETE Job.remove sends. */
  function RemoveQuery(id: JsValue): Query
  {
    Query("DELETE\n" + QueryIndent + "FROM jobs\n" + QueryIndent + "WHERE id = $1\n" + QueryIndent + "RETURNING title", [id])
  }

  /** The text of the UPDATE template around setCols and idVarIdx. */
  function UpdateText(setCols: string, idVarIdx: string): string
  {
    "UPDATE jobs \n" + UpdateIndent + "SET " + setCols + " \n" + UpdateIndent + "WHERE id = " + idVarIdx + " \n"
      + UpdateIndent + "RETURNING id, title, salary, equity, company_handle"
  }

  /** The UPDATE Job.update sends: sqlForPartialUpdate with an empty table,
      the id placeholder "$" + (values.length + 1), parameters [...values, id]. */
  function UpdateQuery(id: JsValue, data: seq<(string, JsValue)>): (r: Completion<Query>)
    ensures r.Thrown? <==> data == []
    ensures r.Thrown? ==> r.error == BadRequestError("No data")
    ensures r.Normal? ==> |r.value.params| == |data| + 1 && r.value.params[|data|] == id
  {
    match Sql.SqlForPartialUpdate(data, map[])
    case Thrown(e) => Thrown(e)
    case Normal(clause) =>
      var idVarIdx := "$" + NatToDecimal(|clause.values| + 1);
      Normal(Query(UpdateText(clause.setCols, idVarIdx), clause.values + [id]))
  }

  /** The parameters bind as intended: SET column i is key i itself (the
      table is empty) with placeholder $(i+1) bound to value i, and the WHERE
      placeholder is $(N+1), bound to the id, one past every SET placeholder. */
  lemma UpdateBindsParameters(id: JsValue, data: seq<(string, JsValue)>)
    requires data != []
    ensures var q := UpdateQuery(id, data).value;
      var frags := Sql.Fragments(data, map[]);
      && q.text == UpdateText(Sql.Join(frags, ", "), Sql.Placeholder(|data| + 1))
      && Sql.ParsePlaceholder(Sql.Placeholder(|data| + 1)) == Some(|data| + 1)
      && |frags| == |data|
      && forall i :: 0 <= i < |data| ==>
           Sql.ParseFragment(frags[i]) == Some((data[i].0, i + 1)) && q.params[i] == data[i].1
  {
    var frags := Sql.Fragments(data, map[]);
    assert Sql.SqlForPartialUpdate(data, map[]) == Normal(Sql.Clause(Sql.Join(frags, ", "), Sql.Values(data)));
    Sql.PlaceholderRoundTrip(|data| + 1);
    Sql.FragmentsReadBack(data, map[]);
  }

  /** Job.get(id). */
  function Get<R>(id: JsValue, db: Query -> seq<R>): (r: Completion<R>)
    ensures r.Thrown? <==> db(GetQuery(id)) == []
    ensures r.Thrown? ==> r.error == NotFoundError("No job: " + ToJsString(id))
    ensures r.Normal? ==> r.value == db(GetQuery(id))[0]
  {
    match FirstRow(db(GetQuery(id)))
    case None => Thrown(NoJob(id))
    case Some(job) => Normal(job)
  }

  /** Job.update(id, data): empty data fails before any query is sent. */
  function Update<R>(id: JsValue, data: seq<(string, JsValue)>, db: Query -> seq<R>): (r: Completion<R>)
    ensures data == [] ==> r == Thrown(BadRequestError("No data"))
    ensures data != [] ==> (r.Thrown? <==> db(UpdateQuery(id, data).value) == [])
    ensures data != [] && r.Thrown? ==> r.error == NotFoundError("No job: " + ToJsString(id))
    ensures r.Normal? ==> data != [] && r.value == db(UpdateQuery(id, data).value)[0]
  {
    match UpdateQuery(id, data)
    case Thrown(e) => Thrown(e)
    case Normal(q) =>
      match FirstRow(db(q))
      case None => Thrown(NoJob(id))
      case Some(job) => Normal(job)
  }

  /** Job.remove(id): returns undefined, or throws when nothing was deleted. */
  function Remove<R>(id: JsValue, db: Query -> seq<R>): (r: Completion<()>)
    ensures r.Thrown? <==> db(RemoveQuery(id)) == []
    ensures r.Thrown? ==> r.error == NotFoundError("No job: " + ToJsString(id))
  {
    match FirstRow(db(RemoveQuery(id)))
    case None => Thrown(NoJob(id))
    case Some(_) => Normal(())
  }

  /** The errors get, update and remove throw themselves: a 404
      NotFoundError naming the id, except that update with no data fails
      with a 400 BadRequestError whatever the database holds. */
  lemma JobErrors<R>(id: JsValue, data: seq<(string, JsValue)>, db: Query -> seq<R>, other: Query -> seq<R>)
    ensures Get(id, db).Thrown? ==> Get(id, db).error == NoJob(id) && Status(NoJob(id)) == 404
    ensures Remove(id, db).Thrown? ==> Remove(id, db).error == NoJob(id) && Status(NoJob(id)) == 404
    ensures Update(id, data, db).Thrown? ==>
      if data == [] then Status(Update(id, data, db).error) == 400 && Update(id, data, db) == Update(id, data, other)
      else Update(id, data, db).error == NoJob(id)
  {
  }
}
