/** The row loop of `dump_table` with --extended-insert: rows packed into multi-row INSERT statements. */
module InsertPacker {
  import opened Sequences

  /** `insertPat` is the text up to VALUES, `netLength` the value of opt_net_buffer_length. */
  datatype Config = Config(insertPat: string, netLength: nat) {
    function InitLength(): nat { |insertPat| + 4 }
  }

  /** The rows of one statement, each already in parentheses. */
  type Group = seq<string>

  /** Each row counts with two more bytes, for the separator or terminator. */
  function RowBytes(rows: seq<string>): nat {
    if rows == [] then 0 else RowBytes(rows[..|rows| - 1]) + 2 + |rows[|rows| - 1]|
  }

  function JoinRows(g: Group): string {
    if g == [] then "" else if |g| == 1 then g[0] else JoinRows(g[..|g| - 1]) + ",\n" + g[|g| - 1]
  }

  function StatementText(c: Config, g: Group): string {
    c.insertPat + JoinRows(g) + ";\n"
  }

  /** The rule for a statement with several rows: with four bytes more, its text is below the buffer length. */
  predicate Fits(c: Config, g: Group) {
    |g| == 1 || (|g| > 1 && |StatementText(c, g)| + 4 < c.netLength)
  }

  function Flatten(gs: seq<Group>): seq<string> {
    if gs == [] then [] else gs[0] + Flatten(gs[1..])
  }

  /** An in-order grouping of `rows` in which every statement satisfies the rule. */
  ghost predicate Grouping(c: Config, rows: seq<string>, gs: seq<Group>) {
    Flatten(gs) == rows && forall g :: g in gs ==> Fits(c, g)
  }

  /** The groups the loop makes from an open statement and the rows still to come. */
  function PackFrom(c: Config, current: Group, rows: seq<string>): (gs: seq<Group>)
    ensures gs != []
    decreases |rows|
  {
    if rows == [] then [current]
    else if c.InitLength() + RowBytes(current) + (2 + |rows[0]|) < c.netLength
    then PackFrom(c, current + [rows[0]], rows[1..])
    else [current] + PackFrom(c, [rows[0]], rows[1..])
  }

  function Pack(c: Config, rows: seq<string>): seq<Group> {
    if rows == [] then [] else PackFrom(c, [rows[0]], rows[1..])
  }

  function Render(c: Config, gs: seq<Group>): string {
    if gs == [] then "" else StatementText(c, gs[0]) + Render(c, gs[1..])
  }

  /** The output while a statement is open. */
  function Written(c: Config, done: seq<Group>, current: Group): string {
    Render(c, done) + c.insertPat + JoinRows(current)
  }

  lemma RowAdded(c: Config, done: seq<Group>, current: Group, row: string)
    requires current != []
    ensures Written(c, done, current + [row]) == Written(c, done, current) + ",\n" + row
    ensures RowBytes(current + [row]) == RowBytes(current) + (2 + |row|)
  {
    assert (current + [row])[..|current|] == current;
  }

  lemma StatementClosed(c: Config, done: seq<Group>, current: Group, row: string)
    ensures Render(c, done + [current]) == Written(c, done, current) + ";\n"
    ensures Written(c, done + [current], [row]) == Written(c, done, current) + ";\n" + c.insertPat + row
  {
    RenderAppend(c, done, current);
  }

  /** The loop itself: what it writes is the packed statements, each with its terminator. */
  method DumpRows(c: Config, rows: seq<string>) returns (out: string)
    ensures out == Render(c, Pack(c, rows))
  {
    out := "";
    var totalLength, rowBreak := c.netLength, false;      // forces a break before the first row
    ghost var done: seq<Group>, current: Group := [], [];
    for i := 0 to |rows|
      invariant rowBreak <==> i > 0
      invariant !rowBreak ==> totalLength == c.netLength && out == "" && done == []
      invariant rowBreak ==> current != [] && totalLength == c.InitLength() + RowBytes(current)
      invariant rowBreak ==> out == Written(c, done, current)
      invariant rowBreak ==> Pack(c, rows) == done + PackFrom(c, current, rows[i..])
    {
      var rowLength := 2 + |rows[i]|;
      assert rows[i..][0] == rows[i] && rows[i..][1..] == rows[i + 1..];
      if totalLength + rowLength < c.netLength {
        RowAdded(c, done, current, rows[i]);
        totalLength := totalLength + rowLength;
        out := out + ",\n" + rows[i];
        current := current + [rows[i]];
      } else {
        if rowBreak {
          StatementClosed(c, done, current, rows[i]);
          out := out + ";\n";
          done := done + [current];
        }
        rowBreak := true;
        out := out + c.insertPat + rows[i];
        totalLength := rowLength + c.InitLength();
        current := [rows[i]];
        assert current[..0] == [] && RowBytes(current) == rowLength;
        assert i == 0 ==> out == Written(c, [], current);
      }
    }
    if rowBreak {
      StatementClosed(c, done, current, "");
      out := out + ";\n";
    }
  }

  lemma {:induction false} RenderAppend(c: Config, gs: seq<Group>, g: Group)
    ensures Render(c, gs + [g]) == Render(c, gs) + StatementText(c, g)
  {
    if gs == [] {
      assert gs + [g] == [g];
    } else {
      RenderAppend(c, gs[1..], g);
      assert (gs + [g])[1..] == gs[1..] + [g];
      Associate(StatementText(c, gs[0]), Render(c, gs[1..]), StatementText(c, g));
    }
  }

  // ---------------------------------------------------------------- the packing is a grouping

  lemma {:induction false} JoinedBytes(g: Group)
    requires g != []
    ensures |JoinRows(g)| + 2 == RowBytes(g)
    decreases |g|
  {
    if |g| > 1 {
      JoinedBytes(g[..|g| - 1]);
    } else {
      assert g[..0] == [];
    }
  }

  /** What the loop counts for a statement is the length of its text and four bytes more. */
  lemma {:induction false} CountedBytes(c: Config, g: Group)
    requires g != []
    ensures c.InitLength() + RowBytes(g) == |StatementText(c, g)| + 4
  {
    JoinedBytes(g);
  }

  lemma {:induction false} PackFromGroups(c: Config, current: Group, rows: seq<string>)
    requires Fits(c, current)
    ensures Grouping(c, current + rows, PackFrom(c, current, rows))
    decreases |rows|
  {
    if rows == [] {
      assert current + rows == current;
      assert Flatten([current]) == current + Flatten([]);
    } else {
      var r, rest := rows[0], rows[1..];
      var more := current + [r];
      assert more[..|current|] == current;
      assert current + rows == more + rest == current + ([r] + rest);
      CountedBytes(c, more);
      if c.InitLength() + RowBytes(current) + (2 + |r|) < c.netLength {
        PackFromGroups(c, more, rest);
      } else {
        PackFromGroups(c, [r], rest);
        var tail := PackFrom(c, [r], rest);
        assert ([current] + tail)[1..] == tail;
      }
    }
  }

  /** Every row appears exactly once and in order, and every statement satisfies the length rule. */
  lemma PackGroups(c: Config, rows: seq<string>)
    ensures Grouping(c, rows, Pack(c, rows))
  {
    if rows != [] {
      PackFromGroups(c, [rows[0]], rows[1..]);
      assert [rows[0]] + rows[1..] == rows;
    }
  }

  /** A statement with two or more rows, terminator included, is shorter than the network buffer. */
  lemma {:induction false} MultiRowStatementsFit(c: Config, rows: seq<string>, g: Group)
    requires g in Pack(c, rows)
    ensures |g| > 0 && (|g| > 1 ==> |StatementText(c, g)| + 4 < c.netLength)
  {
    PackGroups(c, rows);
  }

  // ---------------------------------------------------------------- and uses the fewest statements

  lemma {:induction false} RowBytesConcat(a: seq<string>, b: seq<string>)
    ensures RowBytes(a + b) == RowBytes(a) + RowBytes(b)
    decreases |b|
  {
    if b == [] {
      assert a + b == a;
    } else {
      var n := |b| - 1;
      RowBytesConcat(a, b[..n]);
      assert (a + b)[..|a + b| - 1] == a + b[..n];
    }
  }

  /** A row moved from the rows still to come to the open statement. */
  lemma TakeMore(current: Group, rows: seq<string>, j: nat)
    requires j < |rows|
    ensures current + [rows[0]] + rows[1..][..j] == current + rows[..j + 1] && rows[1..][j..] == rows[j + 1..]
    ensures j + 1 < |rows| ==> current + [rows[0]] + rows[1..][..j + 1] == current + rows[..j + 2]
  {
  }

  /** The first statement takes as many rows as the rule allows. */
  lemma {:induction false} FirstGroupIsLongest(c: Config, current: Group, rows: seq<string>) returns (k: nat)
    requires current != []
    ensures k <= |rows| && PackFrom(c, current, rows) == [current + rows[..k]] + Pack(c, rows[k..])
    ensures k < |rows| ==> |StatementText(c, current + rows[..k + 1])| + 4 >= c.netLength
    decreases |rows|
  {
    if rows == [] {
      k := 0;
      assert current + rows[..0] == current;
    } else {
      var more := current + [rows[0]];
      assert more[..|current|] == current;
      CountedBytes(c, more);
      if c.InitLength() + RowBytes(current) + (2 + |rows[0]|) < c.netLength {
        var j := FirstGroupIsLongest(c, more, rows[1..]);
        k := j + 1;
        TakeMore(current, rows, j);
      } else {
        k := 0;
        assert current + rows[..0] == current && rows[0..] == rows;
        assert current + rows[..1] == more;
      }
    }
  }

  /** A grouping without its first `n` rows, statements that become empty left out. */
  function DropRows(gs: seq<Group>, n: nat): seq<Group>
    decreases |gs|
  {
    if gs == [] || n == 0 then gs
    else if n < |gs[0]| then [gs[0][n..]] + gs[1..]
    else DropRows(gs[1..], n - |gs[0]|)
  }

  lemma {:induction false} SuffixFits(c: Config, g: Group, n: nat)
    requires Fits(c, g) && n < |g|
    ensures Fits(c, g[n..])
  {
    if |g[n..]| > 1 {
      ShorterText(c, g, n);
    }
  }

  lemma {:induction false} ShorterText(c: Config, g: Group, n: nat)
    requires n < |g|
    ensures |StatementText(c, g[n..])| <= |StatementText(c, g)|
  {
    var front, back := g[..n], g[n..];
    RowBytesConcat(front, back);
    assert front + back == g;
    CountedBytes(c, g);
    CountedBytes(c, back);
  }

  lemma {:induction false} CutFirst(c: Config, rows: seq<string>, gs: seq<Group>, n: nat)
    requires Grouping(c, rows, gs) && gs != [] && n < |gs[0]| && Fits(c, gs[0][n..])
    ensures Grouping(c, rows[n..], [gs[0][n..]] + gs[1..])
  {
    var h := [gs[0][n..]] + gs[1..];
    forall x | x in h ensures Fits(c, x) {
      assert x == gs[0][n..] || x in gs;
    }
    assert h[1..] == gs[1..] && rows[n..] == gs[0][n..] + Flatten(gs[1..]);
  }

  lemma {:induction false} DropRowsGroups(c: Config, rows: seq<string>, gs: seq<Group>, n: nat)
    requires Grouping(c, rows, gs) && n <= |rows|
    ensures Grouping(c, rows[n..], DropRows(gs, n)) && |DropRows(gs, n)| <= |gs|
    decreases |gs|
  {
    if n == 0 || gs == [] {
      assert rows[n..] == rows;
    } else {
      var g, tail := gs[0], gs[1..];
      if n < |g| {
        SuffixFits(c, g, n);
        CutFirst(c, rows, gs, n);
      } else {
        DropRowsGroups(c, rows[|g|..], tail, n - |g|);
        assert rows[|g|..][n - |g|..] == rows[n..];
      }
    }
  }

  lemma {:induction false} NoLongerGroup(c: Config, rows: seq<string>, k: nat, g: Group)
    requires k < |rows| ==> |StatementText(c, rows[..k + 1])| + 4 >= c.netLength
    requires k > 0 && Fits(c, g) && g <= rows
    ensures |g| <= k
  {
    if |g| > k {
      assert rows[..k + 1] + rows[k + 1..|g|] == g;
      RowBytesConcat(rows[..k + 1], rows[k + 1..|g|]);
      CountedBytes(c, rows[..k + 1]);
      CountedBytes(c, g);
    }
  }

  /** How many rows the first statement of a packing takes. */
  lemma FirstGroup(c: Config, rows: seq<string>) returns (k: nat)
    requires rows != []
    ensures 0 < k <= |rows| && Pack(c, rows) == [rows[..k]] + Pack(c, rows[k..])
    ensures k < |rows| ==> |StatementText(c, rows[..k + 1])| + 4 >= c.netLength
  {
    var j := FirstGroupIsLongest(c, [rows[0]], rows[1..]);
    k := j + 1;
    TakeMore([], rows, j);
    assert [] + [rows[0]] == [rows[0]] && [] + rows[..k] == rows[..k];
    assert k < |rows| ==> [] + rows[..k + 1] == rows[..k + 1];
  }

  /** No in-order grouping that satisfies the rule has fewer statements. */
  lemma {:induction false} PackIsMinimal(c: Config, rows: seq<string>, gs: seq<Group>)
    requires Grouping(c, rows, gs)
    ensures |Pack(c, rows)| <= |gs|
    decreases |rows|
  {
    if rows != [] {
      var k := FirstGroup(c, rows);
      var g := gs[0];
      NoLongerGroup(c, rows, k, g);
      DropRowsGroups(c, rows[|g|..], gs[1..], k - |g|);
      assert rows[|g|..][k - |g|..] == rows[k..];
      PackIsMinimal(c, rows[k..], DropRows(gs[1..], k - |g|));
    }
  }

  lemma {:induction false} PackTwo(c: Config, a: string, b: string)
    ensures Pack(c, [a, b]) == if |StatementText(c, [a, b])| + 4 < c.netLength then [[a, b]] else [[a], [b]]
  {
    CountedBytes(c, [a, b]);
    assert [a, b][..1] == [a] && [a, b][1..] == [b] && [b][1..] == [] && [a] + [b] == [a, b];
    assert c.InitLength() + RowBytes([a]) + (2 + |b|) == |StatementText(c, [a, b])| + 4;
    assert PackFrom(c, [b], []) == [[b]] && PackFrom(c, [a, b], []) == [[a, b]];
    assert [[a]] + [[b]] == [[a], [b]];
    assert Pack(c, [a, b]) == PackFrom(c, [a], [b]);
  }

  /** For instance, two rows are written as one statement if that is short enough, and as two otherwise. */
  lemma {:induction false} TwoRows(c: Config, a: string, b: string)
    ensures var one := c.insertPat + a + ",\n" + b + ";\n";
            Render(c, Pack(c, [a, b])) ==
            if |one| + 4 < c.netLength then one else c.insertPat + a + ";\n" + (c.insertPat + b + ";\n")
  {
    PackTwo(c, a, b);
    assert [a, b][..1] == [a] && JoinRows([a]) == a;
    assert JoinRows([a, b]) == a + ",\n" + b;
    assert c.insertPat + (a + ",\n" + b) + ";\n" == c.insertPat + a + ",\n" + b + ";\n";
    RenderOne(c, [a, b]);
    RenderOne(c, [b]);
    assert [[a], [b]][1..] == [[b]];
  }

  lemma RenderOne(c: Config, g: Group)
    ensures Render(c, [g]) == StatementText(c, g)
  {
    assert [g][1..] == [] && StatementText(c, g) + "" == StatementText(c, g);
  }
}
