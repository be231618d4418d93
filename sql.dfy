/**
  The partial-update clause builder of helpers/sql.js: sqlForPartialUpdate
  turns the fields of an update request into the SET fragment
  "col1"=$1, "col2"=$2, ... and the list of values bound to those placeholders.

  The request object is modelled as its ordered list of (key, value) entries,
  in the order Object.keys and Object.values both enumerate it; the
  translation table jsToSql as a map from field name to column name.
*/
module Sql {
  import opened Wrappers
  import opened Js
  import opened ExpressError

  /** The object sqlForPartialUpdate returns: { setCols, values }. */
  datatype Clause<V> = Clause(setCols: string, values: seq<V>)

  /** A JavaScript object never holds the same key twice. */
  predicate DistinctKeys<V>(data: seq<(string, V)>)
  {
    forall i, j :: 0 <= i < j < |data| ==> data[i].0 != data[j].0
  }

  /** Property access data[key] on the object: the value stored under key. */
  function Lookup<V>(data: seq<(string, V)>, key: string): Option<V>
  {
    if data == [] then None
    else if data[0].0 == key then Some(data[0].1)
    else Lookup(data[1..], key)
  }

  /** Object.values(data). */
  function Values<V>(data: seq<(string, V)>): seq<V>
  {
    seq(|data|, i requires 0 <= i < |data| => data[i].1)
  }

  /** jsToSql[key] || key: the table's entry when it is a non-empty string,
      otherwise the key itself. */
  function ColumnName(key: string, jsToSql: map<string, string>): string
  {
    if key in jsToSql && jsToSql[key] != "" then jsToSql[key] else key
  }

  /** The positional parameter $n. */
  function Placeholder(n: nat): string
  {
    "$" + NatToDecimal(n)
  }

  /** The fragment "column"=$n. */
  function Fragment(column: string, n: nat): string
  {
    "\"" + column + "\"=" + Placeholder(n)
  }

  /** The mapped keys: for key i, the text "column"=$(i+1) with the key's column. */
  function Fragments<V>(data: seq<(string, V)>, jsToSql: map<string, string>): seq<string>
  {
    seq(|data|, i requires 0 <= i < |data| => Fragment(ColumnName(data[i].0, jsToSql), i + 1))
  }

  /** Array.prototype.join: the items with sep between neighbours. */
  function Join(xs: seq<string>, sep: string): string
  {
    if xs == [] then ""
    else if |xs| == 1 then xs[0]
    else xs[0] + sep + Join(xs[1..], sep)
  }

  /** sqlForPartialUpdate(dataToUpdate, jsToSql). */
  function SqlForPartialUpdate<V>(data: seq<(string, V)>, jsToSql: map<string, string>): (r: Completion<Clause<V>>)
    ensures r.Thrown? <==> data == []
    ensures r.Thrown? ==> r.error == BadRequestError("No data")
    ensures r.Normal? ==> |r.value.values| == |data|
    ensures r.Normal? ==> forall i :: 0 <= i < |data| ==> r.value.values[i] == data[i].1
  {
    if |data| == 0 then Thrown(BadRequestError("No data"))
    else Normal(Clause(Join(Fragments(data, jsToSql), ", "), Values(data)))
  }

  // ----- reading a clause back ---------------------------------------------

  /** The index where the run of decimal digits that ends s begins. */
  function DigitRunStart(s: string): (k: nat)
    ensures k <= |s|
    ensures forall i :: k <= i < |s| ==> IsDigit(s[i])
    ensures k == 0 || !IsDigit(s[k - 1])
  {
    if |s| > 0 && IsDigit(s[|s| - 1]) then DigitRunStart(s[..|s| - 1]) else |s|
  }

  /** Reads $n back into n. */
  function ParsePlaceholder(p: string): Option<nat>
  {
    if |p| >= 2 && p[0] == '$' && AllDigits(p[1..]) then Some(ParseDecimal(p[1..])) else None
  }

  /** Reads "column"=$n back into (column, n). The column may itself hold
      quotes: the placeholder is found from the right, where only digits follow
      the last "=$. */
  function ParseFragment(f: string): Option<(string, nat)>
  {
    var k := DigitRunStart(f);
    if 4 <= k < |f| && f[0] == '"' && f[k - 3] == '"' && f[k - 2] == '=' && f[k - 1] == '$'
    then Some((f[1..k - 3], ParseDecimal(f[k..])))
    else None
  }

  /** Splits s at every ", ": the inverse of joining with ", " for items
      without a comma. */
  function SplitList(s: string): (parts: seq<string>)
    ensures |parts| >= 1
    decreases |s|
  {
    if |s| >= 2 && s[0] == ',' && s[1] == ' ' then [""] + SplitList(s[2..])
    else if s == [] then [""]
    else
      var rest := SplitList(s[1..]);
      [[s[0]] + rest[0]] + rest[1..]
  }

  lemma PlaceholderRoundTrip(n: nat)
    ensures ParsePlaceholder(Placeholder(n)) == Some(n)
  {
    var p := Placeholder(n);
    assert p[1..] == NatToDecimal(n);
  }

  /** Digits appended after a non-digit: the digit run starts where they do. */
  lemma {:induction false} DigitRunAfter(p: string, d: string)
    requires |p| > 0 && !IsDigit(p[|p| - 1])
    requires AllDigits(d)
    ensures DigitRunStart(p + d) == |p|
    decreases |d|
  {
    if d == [] {
      assert p + d == p;
    } else {
      var s := p + d;
      var front := d[..|d| - 1];
      assert s[..|s| - 1] == p + front;
      assert s[|s| - 1] == d[|d| - 1];
      DigitRunAfter(p, front);
    }
  }

  /** A fragment reads back as the column and the placeholder number it was
      built from, whatever characters the column holds. */
  lemma FragmentRoundTrip(column: string, n: nat)
    ensures ParseFragment(Fragment(column, n)) == Some((column, n))
  {
    var d := NatToDecimal(n);
    var p := "\"" + column + "\"=$";
    var f := Fragment(column, n);
    assert f == p + d;
    var q := |p|;
    assert p[q - 1] == '$';
    DigitRunAfter(p, d);
    assert f[q..] == d;
    assert f[1..q - 3] == column;
  }

  /** The fragment at 0-based position i names key i's column and the
      placeholder $(i+1): the placeholders are exactly $1 .. $N, in key order. */
  lemma FragmentsReadBack<V>(data: seq<(string, V)>, jsToSql: map<string, string>)
    ensures |Fragments(data, jsToSql)| == |data|
    ensures forall i :: 0 <= i < |data| ==>
      ParseFragment(Fragments(data, jsToSql)[i]) == Some((ColumnName(data[i].0, jsToSql), i + 1))
  {
    forall i | 0 <= i < |data|
      ensures ParseFragment(Fragments(data, jsToSql)[i]) == Some((ColumnName(data[i].0, jsToSql), i + 1))
    {
      FragmentRoundTrip(ColumnName(data[i].0, jsToSql), i + 1);
    }
  }

  lemma {:induction false} SplitItem(x: string)
    requires ',' !in x
    ensures SplitList(x) == [x]
    decreases |x|
  {
    if x != [] {
      assert x[0] != ',';
      SplitItem(x[1..]);
      assert [x[0]] + x[1..] == x;
    }
  }

  lemma {:induction false} SplitItemThenRest(x: string, t: string)
    requires ',' !in x
    ensures SplitList(x + ", " + t) == [x] + SplitList(t)
    decreases |x|
  {
    var s := x + ", " + t;
    if x == [] {
      assert s == ", " + t && s[2..] == t;
    } else {
      assert x[0] != ',' && s[0] == x[0];
      assert s[1..] == x[1..] + ", " + t;
      SplitItemThenRest(x[1..], t);
      assert [x[0]] + x[1..] == x;
    }
  }

  /** Splitting a ", "-joined list of comma-free items gives the items back. */
  lemma {:induction false} SplitJoin(xs: seq<string>)
    requires |xs| >= 1
    requires forall i :: 0 <= i < |xs| ==> ',' !in xs[i]
    ensures SplitList(Join(xs, ", ")) == xs
    decreases |xs|
  {
    if |xs| == 1 {
      SplitItem(xs[0]);
    } else {
      SplitJoin(xs[1..]);
      SplitItemThenRest(xs[0], Join(xs[1..], ", "));
    }
  }

  lemma FragmentHasNoComma(column: string, n: nat)
    requires ',' !in column
    ensures ',' !in Fragment(column, n)
  {
    var d := NatToDecimal(n);
    assert Fragment(column, n) == "\"" + column + "\"=$" + d;
    assert forall i :: 0 <= i < |d| ==> d[i] != ',';
  }

  /** For N keys whose columns hold no comma, setCols splits into exactly N
      fragments, and fragment i names key i's column and placeholder $(i+1),
      to which value i is bound. */
  lemma SetColsReadBack<V>(data: seq<(string, V)>, jsToSql: map<string, string>)
    requires data != []
    requires forall i :: 0 <= i < |data| ==> ',' !in ColumnName(data[i].0, jsToSql)
    ensures SqlForPartialUpdate(data, jsToSql).Normal?
    ensures var c := SqlForPartialUpdate(data, jsToSql).value;
      var parts := SplitList(c.setCols);
      && |parts| == |data| == |c.values|
      && forall i :: 0 <= i < |data| ==>
           ParseFragment(parts[i]) == Some((ColumnName(data[i].0, jsToSql), i + 1))
           && c.values[i] == data[i].1
  {
    var frags := Fragments(data, jsToSql);
    forall i | 0 <= i < |frags|
      ensures ',' !in frags[i]
    {
      FragmentHasNoComma(ColumnName(data[i].0, jsToSql), i + 1);
    }
    SplitJoin(frags);
    FragmentsReadBack(data, jsToSql);
  }

  /** Value i is the value the object holds under key i: values and
      fragments are aligned because both follow the key order. */
  lemma {:induction false} ValuesAligned<V>(data: seq<(string, V)>)
    requires DistinctKeys(data)
    ensures forall i :: 0 <= i < |data| ==> Lookup(data, data[i].0) == Some(Values(data)[i])
    decreases |data|
  {
    if data != [] {
      var tail := data[1..];
      assert DistinctKeys(tail) by {
        forall i, j | 0 <= i < j < |tail| ensures tail[i].0 != tail[j].0 {
          assert tail[i] == data[i + 1] && tail[j] == data[j + 1];
        }
      }
      ValuesAligned(tail);
      forall i | 0 < i < |data|
        ensures Lookup(data, data[i].0) == Some(Values(data)[i])
      {
        assert data[i] == tail[i - 1];
        assert data[0].0 != data[i].0;
        assert Values(tail)[i - 1] == Values(data)[i];
      }
    }
  }

  /** The SET text depends on the keys and the table only: values never
      appear in it. */
  lemma SetColsIgnoreValues<V>(d1: seq<(string, V)>, d2: seq<(string, V)>, jsToSql: map<string, string>)
    requires |d1| == |d2|
    requires forall i :: 0 <= i < |d1| ==> d1[i].0 == d2[i].0
    ensures SqlForPartialUpdate(d1, jsToSql).Thrown? == SqlForPartialUpdate(d2, jsToSql).Thrown?
    ensures SqlForPartialUpdate(d1, jsToSql).Normal? ==>
      SqlForPartialUpdate(d1, jsToSql).value.setCols == SqlForPartialUpdate(d2, jsToSql).value.setCols
  {
    assert Fragments(d1, jsToSql) == Fragments(d2, jsToSql);
  }

  /** An absent or empty-string table entry falls back to the key; with an
      empty table every column is its key. */
  lemma ColumnFallsBackToKey(key: string, jsToSql: map<string, string>)
    ensures key !in jsToSql ==> ColumnName(key, jsToSql) == key
    ensures key in jsToSql && jsToSql[key] == "" ==> ColumnName(key, jsToSql) == key
    ensures ColumnName(key, map[]) == key
  {
  }

  /** The example in the source comment: {firstName: 'Aliya', age: 32} with
      firstName translated to first_name. */
  lemma WorkedExample()
    ensures SqlForPartialUpdate([("firstName", Str("Aliya")), ("age", Num(32))], map["firstName" := "first_name"])
      == Normal(Clause("\"first_name\"=$1, \"age\"=$2", [Str("Aliya"), Num(32)]))
  {
    var data := [("firstName", Str("Aliya")), ("age", Num(32))];
    var table := map["firstName" := "first_name"];
    assert Placeholder(1) == "$1" && Placeholder(2) == "$2";
    assert ColumnName("firstName", table) == "first_name" && ColumnName("age", table) == "age";
    var frags := Fragments(data, table);
    assert frags[0] == "\"first_name\"=$1" && frags[1] == "\"age\"=$2";
    assert frags[1..] == [frags[1]];
    assert Join(frags, ", ") == frags[0] + ", " + frags[1];
    assert Join(frags, ", ") == "\"first_name\"=$1, \"age\"=$2";
    assert Values(data) == [Str("Aliya"), Num(32)];
  }
}
