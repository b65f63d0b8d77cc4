/** The two similarity tables: clustering/mcl-clustering/similarity_table (a task per cell)
    and clustering/similarity-table (a task per row). */
module SimilarityTables {
  import opened Sequences
  import opened Counting
  import opened Re2
  import opened PoolProtocol
  import opened ThreadPools
  import opened TopEdges

  /** A regex with the strings generated for it. */
  datatype Scorer = Scorer(id: nat, pattern: string, strings: seq<string>)

  type Matrix = seq<seq<real>>

  ghost predicate Square(m: Matrix, n: nat) {
    |m| == n && forall r :: 0 <= r < n ==> |m[r]| == n
  }

  /** The part of the strings that the pattern matches somewhere. */
  function HitRate(re: Engine, strings: seq<string>, pattern: string): real
    requires strings != []
  {
    |Filter(strings, (t: string) => re.partialMatch(t, pattern))| as real / |strings| as real
  }

  lemma {:induction false} HitsCount(re: Engine, strings: seq<string>, pattern: string)
    ensures |Filter(strings, (t: string) => re.partialMatch(t, pattern))|
         == |set i | 0 <= i < |strings| && re.partialMatch(strings[i], pattern)|
  {
    var keep := (t: string) => re.partialMatch(t, pattern);
    FilterSize(strings, keep);
    assert Positions(strings, keep) == set i | 0 <= i < |strings| && re.partialMatch(strings[i], pattern);
  }

  lemma {:induction false} FilterExtremes<T>(s: seq<T>, keep: T -> bool)
    ensures |Filter(s, keep)| <= |s|
    ensures |Filter(s, keep)| == |s| <==> forall x :: x in s ==> keep(x)
    ensures |Filter(s, keep)| == 0 <==> forall x :: x in s ==> !keep(x)
  {
    if s != [] {
      var n := |s| - 1;
      assert s == s[..n] + [s[n]];
      FilterExtremes(s[..n], keep);
    }
  }

  /** The rate is the number of positions whose string matches, over the number of strings:
      1 when all match and only then, 0 when none does and only then. */
  lemma {:induction false} HitRateCounts(re: Engine, strings: seq<string>, pattern: string)
    requires strings != []
    ensures HitRate(re, strings, pattern) * |strings| as real
         == |set i | 0 <= i < |strings| && re.partialMatch(strings[i], pattern)| as real
    ensures 0.0 <= HitRate(re, strings, pattern) <= 1.0
    ensures HitRate(re, strings, pattern) == 1.0 <==> forall t :: t in strings ==> re.partialMatch(t, pattern)
    ensures HitRate(re, strings, pattern) == 0.0 <==> forall t :: t in strings ==> !re.partialMatch(t, pattern)
  {
    var keep := (t: string) => re.partialMatch(t, pattern);
    HitsCount(re, strings, pattern);
    FilterExtremes(strings, keep);
    Fraction(|Filter(strings, keep)|, |strings|);
  }

  /** The counting loop of both scorers. */
  method CountHits(re: Engine, strings: seq<string>, pattern: string) returns (hits: nat)
    ensures hits == |Filter(strings, (t: string) => re.partialMatch(t, pattern))|
  {
    hits := 0;
    for i := 0 to |strings|
      invariant hits == |Filter(strings[..i], (t: string) => re.partialMatch(t, pattern))|
    {
      FilterStep(strings, i, (t: string) => re.partialMatch(t, pattern));
      if re.partialMatch(strings[i], pattern) {
        hits := hits + 1;
      }
    }
    assert strings[..|strings|] == strings;
  }

  method Rate(re: Engine, strings: seq<string>, pattern: string) returns (rate: real)
    requires strings != []
    ensures rate == HitRate(re, strings, pattern)
    ensures rate * |strings| as real
         == |set i | 0 <= i < |strings| && re.partialMatch(strings[i], pattern)| as real
  {
    var hits := CountHits(re, strings, pattern);
    HitRateCounts(re, strings, pattern);
    rate := hits as real / |strings| as real;
  }

  /** Nobody is without strings: the scores divide by their number. */
  ghost predicate AllHaveStrings(scorers: seq<Scorer>) {
    forall s :: s in scorers ==> s.strings != []
  }

  /** The score of regex b on the strings of a. */
  function Cell(re: Engine, scorers: seq<Scorer>, a: nat, b: nat): real
    requires a < |scorers| && b < |scorers| && scorers[a].strings != []
  {
    HitRate(re, scorers[a].strings, scorers[b].pattern)
  }

  /** m[row][col] is the score of the column's regex on the row's strings. */
  ghost predicate ByStrings(re: Engine, scorers: seq<Scorer>, m: Matrix) {
    && AllHaveStrings(scorers) && Square(m, |scorers|)
    && forall r, c :: 0 <= r < |scorers| && 0 <= c < |scorers| ==>
      scorers[r].strings != [] && m[r][c] == Cell(re, scorers, r, c)
  }

  /** m[row][col] is the score of the row's regex on the column's strings. */
  ghost predicate ByRegex(re: Engine, scorers: seq<Scorer>, m: Matrix) {
    && AllHaveStrings(scorers) && Square(m, |scorers|)
    && forall r, c :: 0 <= r < |scorers| && 0 <= c < |scorers| ==>
      scorers[c].strings != [] && m[r][c] == Cell(re, scorers, c, r)
  }

  ghost predicate Transposed(a: Matrix, b: Matrix, n: nat) {
    Square(a, n) && Square(b, n) && forall r, c :: 0 <= r < n && 0 <= c < n ==> a[r][c] == b[c][r]
  }

  /** half is the lower triangle of m, diagonal included, averaged with the upper one; rows
      that m does not have are empty. */
  ghost predicate Averaged(m: Matrix, n: nat, half: Matrix) {
    && |half| == n && (m == [] || Square(m, n))
    && (forall r :: 0 <= r < |m| ==> |half[r]| == r + 1)
    && (forall r :: |m| <= r < n ==> half[r] == [])
    && (forall r, c :: 0 <= c <= r < |m| ==> half[r][c] == (m[r][c] + m[c][r]) / 2.0)
  }

  /** to_similarity_graph, the same loops in both tables. */
  method SimilarityGraph(m: Matrix, n: nat) returns (half: Matrix)
    requires m == [] || Square(m, n)
    ensures Averaged(m, n, half)
  {
    half := seq(n, i => []);
    for row := 0 to |m|
      invariant |half| == n
      invariant forall r :: 0 <= r < row ==> |half[r]| == r + 1
      invariant forall r :: row <= r < n ==> half[r] == []
      invariant forall r, c :: 0 <= c <= r < row ==> half[r][c] == (m[r][c] + m[c][r]) / 2.0
    {
      var line := AverageRow(m, n, row);
      half := half[row := line];
    }
  }

  method AverageRow(m: Matrix, n: nat, row: nat) returns (line: seq<real>)
    requires Square(m, n) && row < n
    ensures |line| == row + 1 && forall c :: 0 <= c <= row ==> line[c] == (m[row][c] + m[c][row]) / 2.0
  {
    line := seq(row + 1, i => 0.0);
    for col := 0 to row + 1
      invariant |line| == row + 1
      invariant forall c :: 0 <= c < col ==> line[c] == (m[row][c] + m[c][row]) / 2.0
    {
      line := line[col := (m[row][col] + m[col][row]) / 2.0];
    }
  }

  /*---------- A task per cell ----------*/

  datatype Scored = Scored(row: nat, col: nat, score: real)

  /** What the task of a cell returns. */
  ghost predicate RightScore(re: Engine, scorers: seq<Scorer>, v: Scored) {
    && v.row < |scorers| && v.col < |scorers| && scorers[v.row].strings != []
    && v.score == Cell(re, scorers, v.row, v.col)
  }

  /** The tasks of the first columns of a row. */
  ghost function RowTasks(re: Engine, scorers: seq<Scorer>, row: nat, cols: nat): (r: seq<Scored>)
    requires AllHaveStrings(scorers) && row < |scorers| && cols <= |scorers|
    ensures |r| == cols && forall c :: 0 <= c < cols ==> r[c] == Scored(row, c, Cell(re, scorers, row, c))
  {
    seq(cols, c requires 0 <= c < cols => Scored(row, c, Cell(re, scorers, row, c)))
  }

  /** The tasks of the first rows, row by row. */
  ghost function TaskRows(re: Engine, scorers: seq<Scorer>, rows: nat): (r: seq<seq<Scored>>)
    requires AllHaveStrings(scorers) && rows <= |scorers|
    ensures |r| == rows && forall i :: 0 <= i < rows ==> r[i] == RowTasks(re, scorers, i, |scorers|)
  {
    seq(rows, i requires 0 <= i < rows => RowTasks(re, scorers, i, |scorers|))
  }

  ghost function Tasks(re: Engine, scorers: seq<Scorer>, rows: nat): seq<Scored>
    requires AllHaveStrings(scorers) && rows <= |scorers|
  {
    Flatten(TaskRows(re, scorers, rows))
  }

  /** Every task computes the right score for its cell... */
  lemma {:induction false} TaskIsRight(re: Engine, scorers: seq<Scorer>, rows: nat, v: Scored)
    requires AllHaveStrings(scorers) && rows <= |scorers| && v in Tasks(re, scorers, rows)
    ensures RightScore(re, scorers, v)
  {
    var i := FlattenFrom(TaskRows(re, scorers, rows), v);
    var c :| 0 <= c < |scorers| && RowTasks(re, scorers, i, |scorers|)[c] == v;
  }

  /** ...and every cell has a task. */
  lemma {:induction false} CellHasTask(re: Engine, scorers: seq<Scorer>, rows: nat, r: nat, c: nat)
    requires AllHaveStrings(scorers) && r < rows <= |scorers| && c < |scorers|
    ensures Scored(r, c, Cell(re, scorers, r, c)) in Tasks(re, scorers, rows)
  {
    assert RowTasks(re, scorers, r, |scorers|)[c] == Scored(r, c, Cell(re, scorers, r, c));
    FlattenHas(TaskRows(re, scorers, rows), r, Scored(r, c, Cell(re, scorers, r, c)));
  }

  /** The scores are in their own cells. */
  ghost predicate InPlace(m: Matrix, n: nat, done: seq<Scored>) {
    && Square(m, n)
    && forall v :: v in done ==> v.row < n && v.col < n && m[v.row][v.col] == v.score
  }

  lemma {:induction false} PlaceOne(re: Engine, scorers: seq<Scorer>, m: Matrix, done: seq<Scored>, v: Scored)
    requires InPlace(m, |scorers|, done) && RightScore(re, scorers, v)
    requires forall u :: u in done ==> RightScore(re, scorers, u)
    ensures InPlace(m[v.row := m[v.row][v.col := v.score]], |scorers|, done + [v])
  {
  }

  /** The entries below the threshold are zero, the others are as they were. */
  ghost predicate Pruned(was: Matrix, threshold: real, now: Matrix) {
    && |now| == |was| && (forall r :: 0 <= r < |now| ==> |now[r]| == |was[r]|)
    && forall r, c :: 0 <= r < |now| && 0 <= c < |now[r]| ==>
      now[r][c] == if was[r][c] < threshold then 0.0 else was[r][c]
  }

  class MclSimilarityTable {
    const re: Engine
    const scorers: seq<Scorer>
    var scores: Matrix

    /** With computeMatrix, fills the matrix on a pool: the result does not depend on the
        number of workers or on the schedule. */
    constructor (re: Engine, scorers: seq<Scorer>, workers: nat, wakeups: nat, computeMatrix: bool)
      requires computeMatrix ==> workers > 0 && AllHaveStrings(scorers)
      ensures this.re == re && this.scorers == scorers
      ensures if computeMatrix then ByStrings(re, scorers, scores) else scores == []
    {
      this.re, this.scorers, this.scores := re, scorers, [];
      new;
      if computeMatrix {
        var pool := new ThreadPool<Scored>(workers, wakeups);
        var futures := EnqueueCells(re, scorers, pool);
        scores := CollectCells(re, scorers, pool, futures);
        pool.Destroy();
      }
    }

    method ToSimilarityGraph()
      requires scores == [] || Square(scores, |scorers|)
      modifies this
      ensures Averaged(old(scores), |scorers|, scores)
      ensures forall r, c :: 0 <= c <= r < |old(scores)| ==>
        2.0 * scores[r][c] == old(scores)[r][c] + old(scores)[c][r]
    {
      scores := SimilarityGraph(scores, |scorers|);
    }

    /** Zeroes the scores below the threshold. */
    method Prune(threshold: real)
      modifies this
      ensures Pruned(old(scores), threshold, scores)
      ensures forall r, c :: 0 <= r < |scores| && 0 <= c < |scores[r]| ==>
        scores[r][c] == if old(scores)[r][c] < threshold then 0.0 else old(scores)[r][c]
    {
      ghost var was := scores;
      for row := 0 to |scores|
        invariant |scores| == |was|
        invariant forall r :: row <= r < |scores| ==> scores[r] == was[r]
        invariant forall r :: 0 <= r < row ==> |scores[r]| == |was[r]|
        invariant forall r, c :: 0 <= r < row && 0 <= c < |scores[r]| ==>
          scores[r][c] == if was[r][c] < threshold then 0.0 else was[r][c]
      {
        var line := PruneRow(scores[row], threshold);
        scores := scores[row := line];
      }
    }

    /** Limits every row to its best entries. */
    method TopKEdges(edges: nat)
      modifies this
      ensures |scores| == |old(scores)|
      ensures forall r :: 0 <= r < |scores| ==> Limited(old(scores)[r], edges, scores[r])
    {
      ghost var was := scores;
      for row := 0 to |scores|
        invariant |scores| == |was|
        invariant forall r :: row <= r < |scores| ==> scores[r] == was[r]
        invariant forall r :: 0 <= r < row ==> Limited(was[r], edges, scores[r])
      {
        var line := LimitRow(scores[row], edges);
        scores := scores[row := line];
      }
    }
  }

  method PruneRow(row: seq<real>, threshold: real) returns (r: seq<real>)
    ensures |r| == |row| && forall c :: 0 <= c < |row| ==> r[c] == if row[c] < threshold then 0.0 else row[c]
  {
    r := row;
    for c := 0 to |r|
      invariant |r| == |row|
      invariant forall i :: 0 <= i < c ==> r[i] == if row[i] < threshold then 0.0 else row[i]
      invariant forall i :: c <= i < |row| ==> r[i] == row[i]
    {
      if r[c] < threshold {
        r := r[c := 0.0];
      }
    }
  }

  /** One task per cell, row by row. A task's value is what Rate promises for its cell. */
  method EnqueueCells(re: Engine, scorers: seq<Scorer>, pool: ThreadPool<Scored>) returns (futures: seq<Ticket>)
    requires AllHaveStrings(scorers) && pool.Usable()
    modifies pool
    ensures pool.Usable() && Promised(pool.jobs, futures, Tasks(re, scorers, |scorers|))
  {
    futures := [];
    for row := 0 to |scorers|
      invariant pool.Usable() && Promised(pool.jobs, futures, Tasks(re, scorers, row))
    {
      futures := EnqueueRow(re, scorers, row, pool, futures, Tasks(re, scorers, row));
      assert TaskRows(re, scorers, row + 1)[..row] == TaskRows(re, scorers, row);
    }
  }

  method EnqueueRow(re: Engine, scorers: seq<Scorer>, row: nat, pool: ThreadPool<Scored>,
                    futures: seq<Ticket>, ghost before: seq<Scored>) returns (more: seq<Ticket>)
    requires AllHaveStrings(scorers) && row < |scorers|
    requires pool.Usable() && Promised(pool.jobs, futures, before)
    modifies pool
    ensures pool.Usable() && Promised(pool.jobs, more, before + RowTasks(re, scorers, row, |scorers|))
  {
    more := futures;
    var strings := scorers[row].strings;
    assert before + [] == before;
    for col := 0 to |scorers|
      invariant pool.Usable() && Promised(pool.jobs, more, before + RowTasks(re, scorers, row, col))
    {
      var pattern := scorers[col].pattern;
      ghost var values := before + RowTasks(re, scorers, row, col);
      more := pool.EnqueueTo(more, () => Scored(row, col, HitRate(re, strings, pattern)), values);
      assert before + RowTasks(re, scorers, row, col + 1) == values + [Scored(row, col, HitRate(re, strings, pattern))];
    }
  }

  /** Waits for the futures in order; each one says where its score belongs. */
  method CollectCells(re: Engine, scorers: seq<Scorer>, pool: ThreadPool<Scored>, futures: seq<Ticket>) returns (m: Matrix)
    requires AllHaveStrings(scorers) && pool.Usable()
    requires Promised(pool.jobs, futures, Tasks(re, scorers, |scorers|))
    modifies pool
    ensures pool.Usable() && ByStrings(re, scorers, m)
  {
    ghost var values := Tasks(re, scorers, |scorers|);
    m := seq(|scorers|, i => seq(|scorers|, j => 0.0));
    for i := 0 to |futures|
      invariant pool.Usable() && Promised(pool.jobs, futures, values) && InPlace(m, |scorers|, values[..i])
    {
      var v := pool.GetFrom(futures, i, values);
      forall u | u in values[..i + 1] ensures RightScore(re, scorers, u) {
        TaskIsRight(re, scorers, |scorers|, u);
      }
      PrefixStep(values, i);
      PlaceOne(re, scorers, m, values[..i], v);
      m := m[v.row := m[v.row][v.col := v.score]];
    }
    assert values[..|futures|] == values;
    AllInPlace(re, scorers, m);
  }

  lemma {:induction false} AllInPlace(re: Engine, scorers: seq<Scorer>, m: Matrix)
    requires AllHaveStrings(scorers) && InPlace(m, |scorers|, Tasks(re, scorers, |scorers|))
    ensures ByStrings(re, scorers, m)
  {
    forall r: nat, c: nat | r < |scorers| && c < |scorers|
      ensures m[r][c] == Cell(re, scorers, r, c)
    {
      CellHasTask(re, scorers, |scorers|, r, c);
    }
  }

  /*---------- A task per row ----------*/

  /** The scores of one regex on the strings of every entity. */
  function RowOf(re: Engine, entities: seq<Scorer>, pattern: string): (row: seq<real>)
    requires forall s :: s in entities ==> s.strings != []
    ensures |row| == |entities| && forall c :: 0 <= c < |row| ==> row[c] == HitRate(re, entities[c].strings, pattern)
  {
    seq(|entities|, c requires 0 <= c < |entities| => HitRate(re, entities[c].strings, pattern))
  }

  class SimilarityTable {
    const re: Engine
    const entities: seq<Scorer>
    var scores: Matrix

    constructor (re: Engine, entities: seq<Scorer>)
      ensures this.re == re && this.entities == entities && Square(scores, |entities|)
      ensures forall r, c :: 0 <= r < |entities| && 0 <= c < |entities| ==> scores[r][c] == 0.0
    {
      this.re, this.entities := re, entities;
      scores := seq(|entities|, r => seq(|entities|, c => 0.0));
    }

    method ComputeRow(pattern: string) returns (row: seq<real>)
      requires AllHaveStrings(entities)
      ensures row == RowOf(re, entities, pattern)
    {
      row := [];
      for c := 0 to |entities|
        invariant |row| == c
        invariant forall i :: 0 <= i < c ==> row[i] == HitRate(re, entities[i].strings, pattern)
      {
        var rate := Rate(re, entities[c].strings, pattern);
        row := row + [rate];
      }
    }

    /** Fills the matrix on a pool, whatever the number of workers and the schedule. */
    method ParallelCompute(workers: nat, wakeups: nat)
      requires workers > 0 && AllHaveStrings(entities) && |scores| == |entities|
      modifies this
      ensures ByRegex(re, entities, scores)
    {
      var pool := new ThreadPool<(nat, seq<real>)>(workers, wakeups);
      var futures := EnqueueRows(re, entities, pool);
      scores := CollectRows(re, entities, pool, futures, scores);
      pool.Destroy();
    }

    method ToSimilarityGraph()
      requires Square(scores, |entities|)
      modifies this
      ensures Averaged(old(scores), |entities|, scores)
      ensures forall r, c :: 0 <= c <= r < |entities| ==>
        2.0 * scores[r][c] == old(scores)[r][c] + old(scores)[c][r]
    {
      scores := SimilarityGraph(scores, |entities|);
    }
  }

  function NumberedRows(re: Engine, entities: seq<Scorer>, rows: nat): (r: seq<(nat, seq<real>)>)
    requires (forall s :: s in entities ==> s.strings != []) && rows <= |entities|
    ensures |r| == rows && forall i :: 0 <= i < rows ==> r[i] == (i, RowOf(re, entities, entities[i].pattern))
  {
    seq(rows, i requires 0 <= i < rows => (i, RowOf(re, entities, entities[i].pattern)))
  }

  /** A task's value is what ComputeRow promises for its row. */
  method EnqueueRows(re: Engine, entities: seq<Scorer>, pool: ThreadPool<(nat, seq<real>)>) returns (futures: seq<Ticket>)
    requires AllHaveStrings(entities) && pool.Usable()
    modifies pool
    ensures pool.Usable() && Promised(pool.jobs, futures, NumberedRows(re, entities, |entities|))
  {
    futures := [];
    for row := 0 to |entities|
      invariant pool.Usable() && Promised(pool.jobs, futures, NumberedRows(re, entities, row))
    {
      var pattern := entities[row].pattern;
      ghost var values := NumberedRows(re, entities, row);
      futures := pool.EnqueueTo(futures, () => (row, RowOf(re, entities, pattern)), values);
      assert NumberedRows(re, entities, row + 1) == values + [(row, RowOf(re, entities, pattern))];
    }
  }

  method CollectRows(re: Engine, entities: seq<Scorer>, pool: ThreadPool<(nat, seq<real>)>,
                     futures: seq<Ticket>, was: Matrix) returns (m: Matrix)
    requires AllHaveStrings(entities) && pool.Usable() && |was| == |entities|
    requires Promised(pool.jobs, futures, NumberedRows(re, entities, |entities|))
    modifies pool
    ensures pool.Usable() && ByRegex(re, entities, m)
  {
    m := was;
    ghost var values := NumberedRows(re, entities, |entities|);
    for i := 0 to |futures|
      invariant pool.Usable() && Promised(pool.jobs, futures, values) && |m| == |entities|
      invariant forall r :: 0 <= r < i ==> m[r] == RowOf(re, entities, entities[r].pattern)
    {
      var v := pool.GetFrom(futures, i, values);
      m := m[v.0 := v.1];
    }
  }

  /*---------- Both tables describe one graph ----------*/

  lemma {:induction false} CellInRange(re: Engine, scorers: seq<Scorer>, a: nat, b: nat)
    requires a < |scorers| && b < |scorers| && scorers[a].strings != []
    ensures 0.0 <= Cell(re, scorers, a, b) <= 1.0
  {
    HitRateCounts(re, scorers[a].strings, scorers[b].pattern);
  }

  /** Over the same regexes and strings the two matrices are each other's transpose, and the
      similarity graphs made from them are equal, with weights in [0,1]. */
  lemma {:induction false} SameGraph(re: Engine, scorers: seq<Scorer>, a: Matrix, b: Matrix, graphA: Matrix, graphB: Matrix)
    requires ByStrings(re, scorers, a) && ByRegex(re, scorers, b)
    requires Averaged(a, |scorers|, graphA) && Averaged(b, |scorers|, graphB)
    ensures Transposed(a, b, |scorers|) && graphA == graphB
    ensures forall r, c :: 0 <= c <= r < |scorers| ==> 0.0 <= graphA[r][c] <= 1.0
  {
    var n := |scorers|;
    forall r, c | 0 <= c <= r < n
      ensures graphA[r][c] == graphB[r][c] && 0.0 <= graphA[r][c] <= 1.0
    {
      CellInRange(re, scorers, r, c);
      CellInRange(re, scorers, c, r);
      assert a[r][c] == b[c][r] && a[c][r] == b[r][c];
    }
    forall r | 0 <= r < n ensures graphA[r] == graphB[r] {
      assert |graphA[r]| == |graphB[r]| == r + 1;
    }
  }

  /** What the cells of the two matrices count: the strings of one entity that the regex of the
      other one matches, with rows and columns exchanged. */
  lemma {:induction false} CellsCountMatches(re: Engine, scorers: seq<Scorer>, a: Matrix, b: Matrix, r: nat, c: nat)
    requires ByStrings(re, scorers, a) && ByRegex(re, scorers, b) && r < |scorers| && c < |scorers|
    ensures var strings, pattern := scorers[r].strings, scorers[c].pattern;
      && a[r][c] == b[c][r]
      && a[r][c] * |strings| as real
         == |set i | 0 <= i < |strings| && re.partialMatch(strings[i], pattern)| as real
  {
    HitRateCounts(re, scorers[r].strings, scorers[c].pattern);
  }

  /** No entry of the matrix, of the graph or of the pruned graph is negative. */
  lemma {:induction false} SimilaritiesAreNonNegative(re: Engine, scorers: seq<Scorer>, m: Matrix, graph: Matrix,
                                                     threshold: real, pruned: Matrix, r: nat)
    requires ByStrings(re, scorers, m) && Averaged(m, |scorers|, graph) && Pruned(graph, threshold, pruned)
    requires r < |scorers|
    ensures NonNegative(m[r]) && NonNegative(graph[r]) && NonNegative(pruned[r])
  {
    forall c: nat | c < |scorers| ensures m[r][c] >= 0.0 && m[c][r] >= 0.0 {
      CellInRange(re, scorers, r, c);
      CellInRange(re, scorers, c, r);
    }
    forall c | 0 <= c <= r ensures graph[r][c] >= 0.0 {
      assert m[r][c] >= 0.0 && m[c][r] >= 0.0;
    }
  }

  /** So the edges of a similarity table may be limited repeatedly: limiting to k and then to j
      leaves the values of limiting to j, and limiting to k again changes nothing. */
  lemma {:induction false} SimilarityLimits(re: Engine, scorers: seq<Scorer>, m: Matrix, graph: Matrix, threshold: real,
                                           pruned: Matrix, row: seq<real>, k: nat, j: nat,
                                           once: seq<real>, twice: seq<real>, direct: seq<real>)
    requires ByStrings(re, scorers, m) && Averaged(m, |scorers|, graph) && Pruned(graph, threshold, pruned)
    requires row in m || row in graph || row in pruned
    requires j <= k && Limited(row, k, once) && Limited(once, j, twice) && Limited(row, j, direct)
    ensures multiset(twice) == multiset(direct) && (j == k ==> twice == once)
  {
    var r: nat :| r < |scorers| && (row == m[r] || row == graph[r] || row == pruned[r]);
    SimilaritiesAreNonNegative(re, scorers, m, graph, threshold, pruned, r);
    NonNegativeLimits(row, k, j, once, twice, direct);
  }
}
