/** Grouping the rows of the hyperparameter sheet into a dict of dicts:
    a row with a type opens a group, every row from there on (the typed row
    included) stores its param under the current group, and numeric values
    are turned into floats. */
module Hyperparams {
  import opened PyValue

  /** One sheet record; `param` is whatever the sheet cell holds. */
  datatype Row = Row(typ: Value, param: Value, value: Value)

  type Groups = map<string, map<Value, Value>>

  /** The group a row opens, if it opens one: its type cell must be truthy,
      not blank once stripped, and not the text "nan". */
  function RowType(r: Row, show: Value -> string): (t: Option<string>)
    ensures t.Some? ==> t.value != [] && t.value == Strip(StrOf(r.typ, show))
    ensures t.Some? <==> Truthy(r.typ) && Strip(StrOf(r.typ, show)) != [] && StrOf(r.typ, show) != "nan"
  {
    var text := StrOf(r.typ, show);
    if Truthy(r.typ) && Strip(text) != [] && text != "nan" then Some(Strip(text)) else None
  }

  /** The current type after the first `n` rows: the type of the last of
      them that opened a group. */
  function CurrentType(rows: seq<Row>, n: int, show: Value -> string): Option<string>
    requires 0 <= n <= |rows|
    decreases n
  {
    if n == 0 then None
    else
      var t := RowType(rows[n - 1], show);
      if t.Some? then t else CurrentType(rows, n - 1, show)
  }

  /** The characters the numeric test removes before `isdigit`. */
  function WithoutDotsAndDashes(s: string): (r: string)
    ensures |r| <= |s|
  {
    if s == [] then []
    else (if s[0] == '.' || s[0] == '-' then [] else [s[0]]) + WithoutDotsAndDashes(s[1..])
  }

  /** `s.replace('.', '').replace('-', '').isdigit()`, with ASCII digits. */
  predicate LooksNumeric(s: string)
  {
    var d := WithoutDotsAndDashes(s);
    d != [] && forall k :: 0 <= k < |d| ==> '0' <= d[k] <= '9'
  }

  /** The value stored for a cell: numeric-looking strings that `parse`
      (Python's float()) accepts, ints (bools included, as in Python) and
      floats become floats; anything else, and a string float() rejects, is
      kept as it is. */
  function Convert(v: Value, parse: string -> Option<real>): (r: Value)
    ensures !r.Int? && !r.Bool?
    ensures v.Int? ==> r == Float(v.i as real)
    ensures v.Bool? ==> r == Float(if v.b then 1.0 else 0.0)
    ensures v.Str? && LooksNumeric(v.s) && parse(v.s).Some? ==> r == Float(parse(v.s).value)
    ensures v.Str? && !(LooksNumeric(v.s) && parse(v.s).Some?) ==> r == v
    ensures v.Float? || v.Null? || v.List? || v.Dict? ==> r == v
  {
    match v
    case Str(s) => if LooksNumeric(s) && parse(s).Some? then Float(parse(s).value) else v
    case Int(i) => Float(i as real)
    case Bool(b) => Float(if b then 1.0 else 0.0)
    case _ => v
  }

  /** Converting twice is converting once. */
  lemma ConvertIdempotent(v: Value, parse: string -> Option<real>)
    ensures Convert(Convert(v, parse), parse) == Convert(v, parse)
  {
  }

  /** The group `t` of `h`, or an empty one (`setdefault`). */
  function GroupOf(h: Groups, t: string): map<Value, Value>
  {
    if t in h then h[t] else map[]
  }

  /** The groups after the first `n` rows. */
  function Group(rows: seq<Row>, n: int, show: Value -> string, parse: string -> Option<real>): Groups
    requires 0 <= n <= |rows|
    decreases n
  {
    if n == 0 then map[]
    else
      var h := Group(rows, n - 1, show, parse);
      var last := rows[n - 1];
      match CurrentType(rows, n, show)
      case None => h
      case Some(t) => h[t := GroupOf(h, t)[last.param := Convert(last.value, parse)]]
  }

  /** Row `i` stores param `p` under group `t`. */
  predicate Writes(rows: seq<Row>, i: int, t: string, p: Value, show: Value -> string)
    requires 0 <= i < |rows|
  {
    CurrentType(rows, i + 1, show) == Some(t) && rows[i].param == p
  }

  /** The hyperparameter loop of get_sheet_df. */
  method GroupRows(rows: seq<Row>, show: Value -> string, parse: string -> Option<real>) returns (h: Groups)
    ensures h == Group(rows, |rows|, show, parse)
  {
    h := map[];
    var current: Option<string> := None;
    for i := 0 to |rows|
      invariant h == Group(rows, i, show, parse)
      invariant current == CurrentType(rows, i, show)
    {
      var r := rows[i];
      var text := StrOf(r.typ, show);
      if Truthy(r.typ) && Strip(text) != [] && text != "nan" {
        current := Some(Strip(text));
      }
      if current.Some? {
        var group := if current.value in h then h[current.value] else map[];
        h := h[current.value := group[r.param := Convert(r.value, parse)]];
      }
    }
  }

  /** After row `i` opened a group and the rows up to `n` opened none, the
      current type is row `i`'s. */
  lemma {:induction false} CurrentTypeIsLastOpened(rows: seq<Row>, show: Value -> string, i: int, n: int)
    requires 0 <= i < n <= |rows| && RowType(rows[i], show).Some?
    requires forall k :: i < k < n ==> RowType(rows[k], show).None?
    ensures CurrentType(rows, n, show) == RowType(rows[i], show)
    decreases n
  {
    if i < n - 1 {
      CurrentTypeIsLastOpened(rows, show, i, n - 1);
    }
  }

  /** Rows before the first one that opens a group store nothing. */
  lemma {:induction false} NoTypeNoGroups(rows: seq<Row>, n: int, show: Value -> string, parse: string -> Option<real>)
    requires 0 <= n <= |rows|
    requires forall k :: 0 <= k < n ==> RowType(rows[k], show).None?
    ensures CurrentType(rows, n, show) == None && Group(rows, n, show, parse) == map[]
    decreases n
  {
    if n > 0 {
      NoTypeNoGroups(rows, n - 1, show, parse);
    }
  }

  /** Last write wins: after the first `n` rows, the value stored for (t, p)
      is the converted value of the last row that writes p under t. */
  lemma {:induction false} LastWriteWins(rows: seq<Row>, n: int, show: Value -> string,
                                         parse: string -> Option<real>, j: int, t: string, p: Value)
    requires 0 <= j < n <= |rows| && Writes(rows, j, t, p, show)
    requires forall i :: j < i < n ==> !Writes(rows, i, t, p, show)
    ensures var g := Group(rows, n, show, parse);
            t in g && p in g[t] && g[t][p] == Convert(rows[j].value, parse)
    decreases n
  {
    if j < n - 1 {
      LastWriteWins(rows, n - 1, show, parse, j, t, p);
      assert !Writes(rows, n - 1, t, p, show);
    }
  }

  /** Nothing is stored that no row wrote: every (t, p) stored after the
      first `n` rows has a last row among them writing it. */
  lemma {:induction false} StoredWasWritten(rows: seq<Row>, n: int, show: Value -> string,
                                            parse: string -> Option<real>, t: string, p: Value)
    returns (j: int)
    requires 0 <= n <= |rows|
    requires var g := Group(rows, n, show, parse); t in g && p in g[t]
    ensures 0 <= j < n && Writes(rows, j, t, p, show)
    ensures forall i :: j < i < n ==> !Writes(rows, i, t, p, show)
    decreases n
  {
    assert n > 0;
    if Writes(rows, n - 1, t, p, show) {
      j := n - 1;
    } else {
      StoredBefore(rows, n, show, parse, t, p);
      j := StoredWasWritten(rows, n - 1, show, parse, t, p);
      forall i | j < i < n
        ensures !Writes(rows, i, t, p, show)
      {
        if i < n - 1 {
          assert j < i < n - 1;
        }
      }
    }
  }

  /** A row that does not write (t, p) cannot be what put it there. */
  lemma StoredBefore(rows: seq<Row>, n: int, show: Value -> string,
                     parse: string -> Option<real>, t: string, p: Value)
    requires 0 < n <= |rows| && !Writes(rows, n - 1, t, p, show)
    requires var g := Group(rows, n, show, parse); t in g && p in g[t]
    ensures var g := Group(rows, n - 1, show, parse); t in g && p in g[t]
  {
    var h := Group(rows, n - 1, show, parse);
    match CurrentType(rows, n, show)
    case None =>
    case Some(u) =>
      if u == t {
        assert rows[n - 1].param != p;
      }
  }

  lemma HalfLooksNumeric()
    ensures LooksNumeric("0.5")
  {
    assert WithoutDotsAndDashes("5") == "5" by {
      assert "5"[1..] == [];
    }
    assert WithoutDotsAndDashes(".5") == "5" by {
      assert ".5"[1..] == "5";
    }
    assert WithoutDotsAndDashes("0.5") == "05" by {
      assert "0.5"[1..] == ".5";
    }
  }

  lemma NegativeLooksNumeric()
    ensures LooksNumeric("-3")
  {
    assert WithoutDotsAndDashes("3") == "3" by {
      assert "3"[1..] == [];
    }
    assert WithoutDotsAndDashes("-3") == "3" by {
      assert "-3"[1..] == "3";
    }
  }

  lemma WordNotNumeric()
    ensures !LooksNumeric("wide")
  {
    assert WithoutDotsAndDashes("wide")[0] == 'w';
  }

  lemma PunctuationNotNumeric()
    ensures !LooksNumeric(".-")
  {
    assert WithoutDotsAndDashes("-") == [] by {
      assert "-"[1..] == [];
    }
    assert WithoutDotsAndDashes(".-") == [] by {
      assert ".-"[1..] == "-";
    }
  }

  /** The numeric test drops every dot and dash before `isdigit`: "0.5" and
      "-3" pass, a word does not, and ".-" leaves nothing, which `isdigit`
      rejects. */
  lemma NumericExamples()
    ensures LooksNumeric("0.5") && LooksNumeric("-3") && !LooksNumeric("wide") && !LooksNumeric(".-")
  {
    HalfLooksNumeric();
    NegativeLooksNumeric();
    WordNotNumeric();
    PunctuationNotNumeric();
  }

  /** The three rows of the example below: a typed row, then two rows
      whose type cells are blank or empty. */
  predicate IsExample(rows: seq<Row>)
  {
    |rows| == 3
    && rows[0] == Row(Str("market"), Str("spread"), Str("0.5"))
    && rows[1] == Row(Str(""), Str("size"), Int(20))
    && rows[2] == Row(Null, Str("spread"), Str("wide"))
  }

  /** A row with a falsy type cell opens no group. */
  lemma UntypedRow(r: Row, show: Value -> string)
    requires !Truthy(r.typ)
    ensures RowType(r, show) == None
  {
  }

  /** A row typed by text without surrounding blanks, other than "nan",
      opens the group of that name. */
  lemma TypedRow(r: Row, show: Value -> string, t: string)
    requires r.typ == Str(t) && t != [] && t != "nan"
    requires !IsSpace(t[0]) && !IsSpace(t[|t| - 1])
    ensures RowType(r, show) == Some(t)
  {
    StripIdentity(t);
  }

  lemma ExampleTypes(rows: seq<Row>, show: Value -> string)
    requires IsExample(rows)
    ensures CurrentType(rows, 1, show) == Some("market")
    ensures CurrentType(rows, 2, show) == Some("market")
    ensures CurrentType(rows, 3, show) == Some("market")
  {
    TypedRow(rows[0], show, "market");
    UntypedRow(rows[1], show);
    UntypedRow(rows[2], show);
  }

  lemma ExampleValues(rows: seq<Row>, parse: string -> Option<real>)
    requires IsExample(rows) && parse("0.5") == Some(0.5)
    ensures Convert(rows[0].value, parse) == Float(0.5)
    ensures Convert(rows[1].value, parse) == Float(20.0)
    ensures Convert(rows[2].value, parse) == Str("wide")
  {
    HalfLooksNumeric();
    WordNotNumeric();
  }

  /** A typed row followed by two untyped ones: all params land in the typed
      row's group, numbers become floats, and the repeated param keeps the
      later value. */
  lemma GroupExample(rows: seq<Row>, show: Value -> string, parse: string -> Option<real>)
    requires IsExample(rows) && parse("0.5") == Some(0.5)
    ensures Group(rows, 3, show, parse)
            == map["market" := map[Str("spread") := Str("wide"), Str("size") := Float(20.0)]]
  {
    ExampleTypes(rows, show);
    ExampleValues(rows, parse);
    var spread, size := Str("spread"), Str("size");
    var m1 := map[spread := Float(0.5)];
    assert Group(rows, 1, show, parse) == map["market" := m1];
    var m2 := m1[size := Float(20.0)];
    assert Group(rows, 2, show, parse) == map["market" := m2];
    assert m2[spread := Str("wide")] == map[spread := Str("wide"), size := Float(20.0)];
  }
}
