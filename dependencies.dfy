/**
 * The dependency count of a column's formula: how many references of the form
 * `%<column>.code` or `%<column>.label` it makes to the other columns of its table, plus,
 * for every column it refers to, that column's own count. The count is memoised in a cache
 * keyed by (sheet, column id, field header).
 */
module Dependencies {
  import opened Wrappers
  import opened JavaStrings

  /** A column of the table schema: its id and the formula fields of its header row. */
  datatype TableColumn = TableColumn(id: string, fields: map<string, string>)

  /** `column.getFieldByHeader(header)`: null when the column has no such field. */
  function FieldOf(column: TableColumn, header: string): Option<string> {
    if header in column.fields then Some(column.fields[header]) else None
  }

  function CodeRef(id: string): string {
    "%" + id + ".code"
  }

  function LabelRef(id: string): string {
    "%" + id + ".label"
  }

  /** The length of the reference to column `id` that starts `s`, 0 when none does. */
  function MatchLength(s: string, id: string): (r: nat)
    ensures r <= |s|
    ensures r == 0 <==> !OccursAt(s, CodeRef(id), 0) && !OccursAt(s, LabelRef(id), 0)
  {
    if OccursAt(s, CodeRef(id), 0) then |CodeRef(id)|
    else if OccursAt(s, LabelRef(id), 0) then |LabelRef(id)|
    else 0
  }

  /** The matches of `%<id>.(code|label)` in `s`, found left to right without overlap. */
  function CountRefsIn(s: string, id: string): nat
    decreases |s|
  {
    if s == [] then 0
    else
      var m := MatchLength(s, id);
      if m > 0 then 1 + CountRefsIn(s[m..], id) else CountRefsIn(s[1..], id)
  }

  /** `isDependentBy`: 0 for a null formula, otherwise the number of matches. */
  function Occurrences(id: string, value: Option<string>): nat {
    match value
    case None => 0
    case Some(s) => CountRefsIn(s, id)
  }

  /** `s` refers to column `id` somewhere. */
  ghost predicate Mentions(s: string, id: string) {
    exists i :: OccursAt(s, CodeRef(id), i) || OccursAt(s, LabelRef(id), i)
  }

  /** `isDependentBy` as written: a matcher loop counting the matches. */
  method IsDependentBy(id: string, value: Option<string>) returns (counter: nat)
    ensures counter == Occurrences(id, value)
  {
    if value.None? {
      return 0;
    }
    var s := value.value;
    counter := 0;
    var rest := s;
    while rest != []
      invariant counter + CountRefsIn(rest, id) == CountRefsIn(s, id)
      decreases |rest|
    {
      var m := MatchLength(rest, id);
      if m > 0 {
        counter := counter + 1;
        rest := rest[m..];
      } else {
        rest := rest[1..];
      }
    }
  }

  lemma OccursAtShift(s: string, t: string, i: int)
    requires s != [] && i >= 1
    ensures OccursAt(s, t, i) <==> OccursAt(s[1..], t, i - 1)
  {
    if i + |t| <= |s| {
      assert s[1..][i - 1..i - 1 + |t|] == s[i..i + |t|];
    }
  }

  /** The count is zero exactly when the text refers to the column nowhere. */
  lemma {:induction false} CountRefsZeroIff(s: string, id: string)
    ensures CountRefsIn(s, id) == 0 <==> !Mentions(s, id)
    decreases |s|
  {
    if s == [] {
      assert forall t, i :: OccursAt(s, t, i) ==> |t| == 0 && i == 0;
      assert |CodeRef(id)| > 0 && |LabelRef(id)| > 0;
    } else if OccursAt(s, CodeRef(id), 0) {
      assert Mentions(s, id);
    } else if OccursAt(s, LabelRef(id), 0) {
      assert Mentions(s, id);
    } else {
      CountRefsZeroIff(s[1..], id);
      if Mentions(s, id) {
        var i :| OccursAt(s, CodeRef(id), i) || OccursAt(s, LabelRef(id), i);
        OccursAtShift(s, CodeRef(id), i);
        OccursAtShift(s, LabelRef(id), i);
        assert Mentions(s[1..], id);
      }
      if Mentions(s[1..], id) {
        var i :| OccursAt(s[1..], CodeRef(id), i) || OccursAt(s[1..], LabelRef(id), i);
        OccursAtShift(s, CodeRef(id), i + 1);
        OccursAtShift(s, LabelRef(id), i + 1);
        assert Mentions(s, id);
      }
    }
  }

  /** A reference written at the front of a text adds one to its count. */
  lemma CountRefsLeading(id: string, rest: string)
    ensures CountRefsIn(CodeRef(id) + rest, id) == 1 + CountRefsIn(rest, id)
    ensures CountRefsIn(LabelRef(id) + rest, id) == 1 + CountRefsIn(rest, id)
  {
    var c, l := CodeRef(id) + rest, LabelRef(id) + rest;
    assert c[..|CodeRef(id)|] == CodeRef(id) && c[|CodeRef(id)|..] == rest;
    assert l[..|LabelRef(id)|] == LabelRef(id) && l[|LabelRef(id)|..] == rest;
    assert c[..|CodeRef(id)|][|"%" + id|] == '.';
    assert l[..|CodeRef(id)|][|"%" + id| + 1] != CodeRef(id)[|"%" + id| + 1];
  }

  // ---------------------------------------------------------------- the recursive count

  /** No two columns of the schema share an id. */
  predicate UniqueIds(schema: seq<TableColumn>) {
    forall i, j :: 0 <= i < |schema| && 0 <= j < |schema| && schema[i].id == schema[j].id ==> i == j
  }

  /** The references between distinct columns form no cycle: `rank` strictly decreases along
      every reference. */
  predicate Ranked(schema: seq<TableColumn>, header: string, rank: map<string, nat>) {
    forall c, d :: c in schema && d in schema && d.id != c.id && Occurrences(d.id, FieldOf(c, header)) > 0 ==>
      c.id in rank && d.id in rank && rank[d.id] < rank[c.id]
  }

  function RankOf(rank: map<string, nat>, id: string): nat {
    if id in rank then rank[id] else 0
  }

  /** The dependency count of `column`'s formula under `header`. */
  function DepCount(schema: seq<TableColumn>, header: string, rank: map<string, nat>, column: TableColumn): nat
    requires Ranked(schema, header, rank) && column in schema
    decreases RankOf(rank, column.id), |schema| + 1
  {
    DepSum(schema, header, rank, column, 0)
  }

  /** What the columns `schema[j..]` contribute to the count of `column`. */
  function DepSum(schema: seq<TableColumn>, header: string, rank: map<string, nat>, column: TableColumn, j: nat): nat
    requires Ranked(schema, header, rank) && column in schema && j <= |schema|
    decreases RankOf(rank, column.id), |schema| - j
  {
    if j == |schema| then 0
    else Contribution(schema, header, rank, column, schema[j]) + DepSum(schema, header, rank, column, j + 1)
  }

  /** What one other column contributes: its references, plus its own count when there are any. */
  function Contribution(schema: seq<TableColumn>, header: string, rank: map<string, nat>, column: TableColumn, col: TableColumn): nat
    requires Ranked(schema, header, rank) && column in schema && col in schema
    decreases RankOf(rank, column.id), 0
  {
    if col.id == column.id then 0
    else
      var n := Occurrences(col.id, FieldOf(column, header));
      n + (if n > 0 then DepCount(schema, header, rank, col) else 0)
  }

  lemma {:induction false} DepSumZeroIff(schema: seq<TableColumn>, header: string, rank: map<string, nat>, column: TableColumn, j: nat)
    requires Ranked(schema, header, rank) && column in schema && j <= |schema|
    ensures DepSum(schema, header, rank, column, j) == 0 <==>
      forall k :: j <= k < |schema| && schema[k].id != column.id ==> Occurrences(schema[k].id, FieldOf(column, header)) == 0
    decreases |schema| - j
  {
    if j < |schema| {
      DepSumZeroIff(schema, header, rank, column, j + 1);
    }
  }

  /** The count is zero exactly when the formula refers to no other column of the schema;
      references to the column itself are never counted. */
  lemma DepCountZeroIff(schema: seq<TableColumn>, header: string, rank: map<string, nat>, column: TableColumn)
    requires Ranked(schema, header, rank) && column in schema
    ensures DepCount(schema, header, rank, column) == 0 <==>
      forall col :: col in schema && col.id != column.id ==> Occurrences(col.id, FieldOf(column, header)) == 0
  {
    DepSumZeroIff(schema, header, rank, column, 0);
    if DepCount(schema, header, rank, column) == 0 {
      forall col | col in schema && col.id != column.id
        ensures Occurrences(col.id, FieldOf(column, header)) == 0
      {
        var k :| 0 <= k < |schema| && schema[k] == col;
      }
    }
  }

  lemma {:induction false} DepSumCovers(schema: seq<TableColumn>, header: string, rank: map<string, nat>, column: TableColumn, j: nat, k: nat)
    requires Ranked(schema, header, rank) && column in schema && j <= k < |schema|
    ensures DepSum(schema, header, rank, column, j) >= Contribution(schema, header, rank, column, schema[k])
    decreases |schema| - j
  {
    if j < k {
      DepSumCovers(schema, header, rank, column, j + 1, k);
    }
  }

  /** A column that refers to another column has a larger count than that column: this is what
      makes sorting by the count solve every referenced column first. */
  lemma DepCountGrowsAlongReferences(schema: seq<TableColumn>, header: string, rank: map<string, nat>, column: TableColumn, col: TableColumn)
    requires Ranked(schema, header, rank) && column in schema && col in schema
    requires col.id != column.id && Occurrences(col.id, FieldOf(column, header)) > 0
    ensures DepCount(schema, header, rank, column) > DepCount(schema, header, rank, col)
  {
    var k :| 0 <= k < |schema| && schema[k] == col;
    DepSumCovers(schema, header, rank, column, 0, k);
  }

  // ---------------------------------------------------------------- the cache

  /** The cache key: sheet name, column id and field header. */
  datatype Cell = Cell(tableName: string, columnId: string, columnHeader: string)

  /** The memo of dependency counts shared by every formula. */
  class DependencyCache {
    var entries: map<Cell, nat>

    constructor()
      ensures entries == map[]
    {
      entries := map[];
    }

    /** Every cached count for this sheet and header is the count of that column. */
    ghost predicate Sound(sheet: string, schema: seq<TableColumn>, header: string, rank: map<string, nat>)
      reads this
      requires Ranked(schema, header, rank)
    {
      forall col :: col in schema && Cell(sheet, col.id, header) in entries ==>
        entries[Cell(sheet, col.id, header)] == DepCount(schema, header, rank, col)
    }

    /** `evalDependencies`: the cached count if there is one; otherwise the sum over the other
        columns of their references plus, when there are any, their own count, which is then
        stored. */
    method EvalDependencies(sheet: string, schema: seq<TableColumn>, header: string, ghost rank: map<string, nat>, column: TableColumn)
      returns (count: nat)
      requires Ranked(schema, header, rank) && UniqueIds(schema) && column in schema
      requires Sound(sheet, schema, header, rank)
      modifies this
      ensures Sound(sheet, schema, header, rank)
      ensures count == DepCount(schema, header, rank, column)
      ensures Cell(sheet, column.id, header) in entries && entries[Cell(sheet, column.id, header)] == count
      ensures forall cell :: cell in old(entries) ==> cell in entries && entries[cell] == old(entries)[cell]
      decreases RankOf(rank, column.id)
    {
      var cell := Cell(sheet, column.id, header);
      if cell in entries {
        return entries[cell];
      }
      var formula := FieldOf(column, header);
      var dependencies := 0;
      for j := 0 to |schema|
        invariant Sound(sheet, schema, header, rank)
        invariant dependencies + DepSum(schema, header, rank, column, j) == DepCount(schema, header, rank, column)
        invariant forall c :: c in old(entries) ==> c in entries && entries[c] == old(entries)[c]
      {
        var col := schema[j];
        if col.id != column.id {
          var numOfDep := IsDependentBy(col.id, formula);
          dependencies := dependencies + numOfDep;
          if numOfDep > 0 {
            var child := EvalDependencies(sheet, schema, header, rank, col);
            dependencies := dependencies + child;
          }
        }
      }
      entries := entries[cell := dependencies];
      count := dependencies;
      forall col | col in schema && Cell(sheet, col.id, header) in entries
        ensures entries[Cell(sheet, col.id, header)] == DepCount(schema, header, rank, col)
      {
        if col.id == column.id {
          var a :| 0 <= a < |schema| && schema[a] == col;
          var b :| 0 <= b < |schema| && schema[b] == column;
        }
      }
    }
  }
}
