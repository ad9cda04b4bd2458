/**
  Hankel windows over recorded rows, and the receding-horizon histories that
  must walk through them one row at a time.
 */
module Hankel {
  import opened Prelude

  type Row = seq<real>

  ghost predicate Rectangular(rows: seq<Row>, width: nat) {
    forall i :: 0 <= i < |rows| ==> |rows[i]| == width
  }

  function Flatten(rows: seq<Row>): Row {
    if rows == [] then [] else Flatten(rows[..|rows| - 1]) + rows[|rows| - 1]
  }

  function Min(a: int, b: int): int {
    if a < b then a else b
  }

  /** Rows from `start` on, flattened; a slice that reaches past the end is cut. */
  function WindowMatrix(rows: seq<Row>, start: nat, length: nat): Row {
    Flatten(rows[Min(start, |rows|)..Min(start + length, |rows|)])
  }

  /** Drop the oldest block and append the new one. */
  function UpdateHistory(history: Row, block: nat, added: Row): Row {
    history[Min(block, |history|)..] + added
  }

  function FirstBlock(column: Row, block: nat): Row {
    column[..Min(block, |column|)]
  }

  // ----- Flattening -----

  lemma {:induction false} FlattenConcat(a: seq<Row>, b: seq<Row>)
    ensures Flatten(a + b) == Flatten(a) + Flatten(b)
  {
    if b == [] {
      assert a + b == a;
    } else {
      var init := b[..|b| - 1];
      FlattenConcat(a, init);
      assert (a + b)[..|a + b| - 1] == a + init;
    }
  }

  lemma FlattenFront(rows: seq<Row>)
    requires rows != []
    ensures Flatten(rows) == rows[0] + Flatten(rows[1..])
  {
    assert rows == [rows[0]] + rows[1..];
    FlattenConcat([rows[0]], rows[1..]);
    assert [rows[0]][..0] == [];
  }

  lemma {:induction false} FlattenLength(rows: seq<Row>, width: nat)
    requires Rectangular(rows, width)
    ensures |Flatten(rows)| == |rows| * width
  {
    if rows != [] {
      FlattenLength(rows[..|rows| - 1], width);
      ProductStep(|rows|, width);
    }
  }

  lemma ProductStep(n: nat, width: nat)
    requires 0 < n
    ensures n * width == (n - 1) * width + width
  {
  }

  // ----- One step of the walk -----

  /** Updating a window with the row after it gives the next window. */
  lemma WindowMoves(rows: seq<Row>, width: nat, i: nat, length: nat)
    requires Rectangular(rows, width) && 0 < length && i + length < |rows|
    ensures UpdateHistory(WindowMatrix(rows, i, length), width, rows[i + length]) == WindowMatrix(rows, i + 1, length)
  {
    var old', new' := rows[i..i + length], rows[i + 1..i + 1 + length];
    FlattenFront(old');
    assert old'[1..] == new'[..length - 1] && new'[length - 1] == rows[i + length];
    assert new'[..|new'| - 1] == new'[..length - 1];
  }

  lemma FutureStartsWithRow(rows: seq<Row>, width: nat, i: nat, length: nat)
    requires Rectangular(rows, width) && 0 < length && i + length <= |rows|
    ensures FirstBlock(WindowMatrix(rows, i, length), width) == rows[i]
  {
    FlattenFront(rows[i..i + length]);
  }

  lemma WindowLength(rows: seq<Row>, width: nat, i: nat, length: nat)
    requires Rectangular(rows, width) && i + length <= |rows|
    ensures |WindowMatrix(rows, i, length)| == length * width
  {
    FlattenLength(rows[i..i + length], width);
  }

  lemma ProductBounds(n: nat, width: nat)
    ensures n == 0 || width == 0 ==> n * width == 0
    ensures n > 0 ==> n * width >= width
  {
    if n > 0 {
      ProductStep(n, width);
    }
  }

  /**
    The first block of future column i moves past column i to past column
    i + 1 if and only if the horizons are both positive, both zero, or the blocks are empty.
   */
  lemma HistoryWalksIff(rows: seq<Row>, width: nat, i: nat, past: nat, future: nat)
    requires Rectangular(rows, width) && i + past + future < |rows|
    ensures UpdateHistory(WindowMatrix(rows, i, past), width, FirstBlock(WindowMatrix(rows, i + past, future), width))
              == WindowMatrix(rows, i + 1, past)
            <==> (0 < past <==> 0 < future) || width == 0
  {
    WindowLength(rows, width, i, past);
    WindowLength(rows, width, i + past, future);
    WindowLength(rows, width, i + 1, past);
    ProductBounds(past, width);
    ProductBounds(future, width);
    if 0 < past && 0 < future {
      FutureStartsWithRow(rows, width, i + past, future);
      WindowMoves(rows, width, i, past);
    }
    hide WindowMatrix;
  }

  /** With no future the walk loses its newest row. */
  lemma NoFutureBreaksWalk()
    ensures var rows := [[0.0], [1.0]];
      && Rectangular(rows, 1)
      && UpdateHistory(WindowMatrix(rows, 0, 1), 1, FirstBlock(WindowMatrix(rows, 1, 0), 1)) != WindowMatrix(rows, 1, 1)
  {
    HistoryWalksIff([[0.0], [1.0]], 1, 0, 1, 0);
  }

  // ----- Building the blocks -----

  /** The rows of the three signals and their times; without context columns `d` is not used. */
  datatype Data = Data(u: seq<Row>, y: seq<Row>, d: seq<Row>, hasContext: bool, times: seq<real>) {
    predicate Ok() {
      |u| == |y| == |d| == |times|
    }
  }

  datatype Blocks = Blocks(up: seq<Row>, uf: seq<Row>, yp: seq<Row>, yf: seq<Row>, dp: seq<Row>, df: seq<Row>,
      starts: seq<real>)

  /** `p` and `f` hold the first `n` past and future windows. */
  ghost predicate AreWindows(rows: seq<Row>, past: nat, future: nat, n: nat, p: seq<Row>, f: seq<Row>) {
    |p| == |f| == n
    && forall i :: 0 <= i < n ==> p[i] == WindowMatrix(rows, i, past) && f[i] == WindowMatrix(rows, i + past, future)
  }

  lemma OneMoreWindow(rows: seq<Row>, past: nat, future: nat, n: nat, p: seq<Row>, f: seq<Row>)
    requires AreWindows(rows, past, future, n, p, f)
    ensures AreWindows(rows, past, future, n + 1, p + [WindowMatrix(rows, n, past)], f + [WindowMatrix(rows, n + past, future)])
  {
    hide WindowMatrix;
  }

  /**
    The columns of all matrices; None where the data are too short, or no horizon is positive and the
    last start time is missing.
   */
  method BuildHankelBlocks(data: Data, past: nat, future: nat) returns (r: Option<Blocks>)
    requires data.Ok()
    ensures r.None? <==> |data.u| < past + future || past + future == 0
    ensures r.Some? ==>
              var n, b := |data.u| - past - future + 1, r.value;
              && AreWindows(data.u, past, future, n, b.up, b.uf) && AreWindows(data.y, past, future, n, b.yp, b.yf)
              && AreWindows(data.d, past, future, if data.hasContext then n else 0, b.dp, b.df)
              && b.starts == data.times[..n]
  {
    hide WindowMatrix, AreWindows;
    var windows := |data.u| - (past + future) + 1;
    if windows <= 0 {
      return None;
    }
    var up, uf, yp, yf, dp, df, starts := [], [], [], [], [], [], [];
    NoWindows(data.u, past, future);
    NoWindows(data.y, past, future);
    NoWindows(data.d, past, future);
    for i := 0 to windows
      invariant AreWindows(data.u, past, future, i, up, uf) && AreWindows(data.y, past, future, i, yp, yf)
      invariant AreWindows(data.d, past, future, if data.hasContext then i else 0, dp, df)
      invariant i <= |data.times| && starts == data.times[..i]
    {
      OneMoreWindow(data.u, past, future, i, up, uf);
      OneMoreWindow(data.y, past, future, i, yp, yf);
      up, uf := up + [WindowMatrix(data.u, i, past)], uf + [WindowMatrix(data.u, i + past, future)];
      yp, yf := yp + [WindowMatrix(data.y, i, past)], yf + [WindowMatrix(data.y, i + past, future)];
      if data.hasContext {
        OneMoreWindow(data.d, past, future, i, dp, df);
        dp, df := dp + [WindowMatrix(data.d, i, past)], df + [WindowMatrix(data.d, i + past, future)];
      }
      if i == |data.times| {
        return None;
      }
      starts := starts + [data.times[i]];
    }
    r := Some(Blocks(up, uf, yp, yf, dp, df, starts));
  }

  lemma NoWindows(rows: seq<Row>, past: nat, future: nat)
    ensures AreWindows(rows, past, future, 0, [], [])
  {
  }

  /** In every built pair of matrices with positive horizons each past column is the update of the one before. */
  lemma ColumnsWalk(rows: seq<Row>, width: nat, past: nat, future: nat, p: seq<Row>, f: seq<Row>, i: nat)
    requires Rectangular(rows, width) && 0 < past && 0 < future && i + 1 < |p| == |rows| - past - future + 1
    requires AreWindows(rows, past, future, |p|, p, f)
    ensures UpdateHistory(p[i], width, FirstBlock(f[i], width)) == p[i + 1]
  {
    HistoryWalksIff(rows, width, i, past, future);
  }

  // ----- The rollout -----

  /** What one step of the rollout applies: the chosen input and the predicted output. */
  datatype Choice = Choice(input: Row, output: Row)

  function Inputs(choices: seq<Choice>): seq<Row> {
    seq(|choices|, k requires 0 <= k < |choices| => choices[k].input)
  }

  function Outputs(choices: seq<Choice>): seq<Row> {
    seq(|choices|, k requires 0 <= k < |choices| => choices[k].output)
  }

  /**
    The receding-horizon loop, for any solver results: after every step the
    histories are the last `past` rows of the recorded ones followed by the
    applied ones, and the previous input is the newest block of the input history.
   */
  method Rollout(u: seq<Row>, y: seq<Row>, d: seq<Row>, nu: nat, ny: nat, nd: nat, past: nat, choices: seq<Choice>)
    returns (uIni: Row, yIni: Row, dIni: Row, previous: Row)
    requires 0 < past && past <= |u| == |y| == |d| && past + |choices| <= |d|
    requires Rectangular(u, nu) && Rectangular(y, ny) && Rectangular(d, nd)
    requires Rectangular(Inputs(choices), nu) && Rectangular(Outputs(choices), ny)
    ensures uIni == WindowMatrix(u[..past] + Inputs(choices), |choices|, past)
    ensures yIni == WindowMatrix(y[..past] + Outputs(choices), |choices|, past)
    ensures dIni == WindowMatrix(d, |choices|, past)
    ensures previous == (u[..past] + Inputs(choices))[past + |choices| - 1]
  {
    var n := |choices|;
    ghost var us, ys := u[..past] + Inputs(choices), y[..past] + Outputs(choices);
    uIni, yIni, dIni := Flatten(u[..past]), Flatten(y[..past]), Flatten(d[..past]);
    InitialHistory(u, Inputs(choices), nu, past);
    InitialHistory(y, Outputs(choices), ny, past);
    InitialHistory(d[..past], d[past..], nd, past);
    assert d[..past][..past] == d[..past] && d[..past] + d[past..] == d;
    hide Flatten, WindowMatrix, UpdateHistory, Rectangular;
    NewestBlock(us, nu, 0, past);
    previous := uIni[|uIni| - nu..];
    for k := 0 to n
      invariant uIni == WindowMatrix(us, k, past) && yIni == WindowMatrix(ys, k, past) && dIni == WindowMatrix(d, k, past)
      invariant previous == us[past + k - 1]
    {
      WindowMoves(us, nu, k, past);
      WindowMoves(ys, ny, k, past);
      WindowMoves(d, nd, k, past);
      assert us[k + past] == choices[k].input && ys[k + past] == choices[k].output;
      uIni := UpdateHistory(uIni, nu, choices[k].input);
      yIni := UpdateHistory(yIni, ny, choices[k].output);
      dIni := UpdateHistory(dIni, nd, d[past + k]);
      previous := choices[k].input;
    }
  }

  lemma InitialHistory(recorded: seq<Row>, applied: seq<Row>, width: nat, past: nat)
    requires past <= |recorded| && Rectangular(recorded, width) && Rectangular(applied, width)
    ensures Rectangular(recorded[..past] + applied, width)
    ensures WindowMatrix(recorded[..past] + applied, 0, past) == Flatten(recorded[..past])
  {
    assert (recorded[..past] + applied)[0..past] == recorded[..past];
  }

  lemma NewestBlock(rows: seq<Row>, width: nat, i: nat, length: nat)
    requires Rectangular(rows, width) && 0 < length && i + length <= |rows|
    ensures var w := WindowMatrix(rows, i, length);
      |w| >= width && w[|w| - width..] == rows[i + length - 1]
  {
    var s := rows[i..i + length];
    assert Flatten(s) == Flatten(s[..|s| - 1]) + s[|s| - 1];
  }
}
