/** The extraction step: the tables read from the raw-data files are combined
    into one dataset, and a directory without data files is an error. */
module Extract {
  import opened Survey

  datatype Result<+T, +E> = Success(value: T) | Failure(error: E)

  /** The raw-data directory holds no CSV file. */
  datatype ExtractError = NoCsvFiles

  /** The tables stacked one after another, first table first, with a fresh
      row numbering. */
  function Concat(tables: seq<seq<Record>>): seq<Record>
  {
    if tables == [] then [] else Concat(tables[..|tables| - 1]) + tables[|tables| - 1]
  }

  /** The number of rows over all tables. */
  function TotalRows(tables: seq<seq<Record>>): nat
  {
    if tables == [] then 0 else TotalRows(tables[..|tables| - 1]) + |tables[|tables| - 1]|
  }

  /** The combined dataset has as many rows as the files together. */
  lemma {:induction false} ConcatLength(tables: seq<seq<Record>>)
    ensures |Concat(tables)| == TotalRows(tables)
  {
    if tables != [] {
      ConcatLength(tables[..|tables| - 1]);
    }
  }

  lemma {:induction false} ConcatAppend(a: seq<seq<Record>>, b: seq<seq<Record>>)
    ensures Concat(a + b) == Concat(a) + Concat(b)
    decreases |b|
  {
    if b == [] {
      assert a + b == a;
    } else {
      var b' := b[..|b| - 1];
      assert (a + b)[..|a + b| - 1] == a + b';
      ConcatAppend(a, b');
    }
  }

  lemma ConcatStep(tables: seq<seq<Record>>, i: nat)
    requires i < |tables|
    ensures Concat(tables[..i + 1]) == Concat(tables[..i]) + tables[i]
  {
    assert tables[..i + 1][..i] == tables[..i];
  }

  lemma SplitAt(tables: seq<seq<Record>>, n: nat)
    requires n <= |tables|
    ensures tables == tables[..n] + tables[n..]
  {
  }

  /** Each table appears whole, in place, after all earlier tables and before
      all later ones. */
  lemma ConcatInOrder(tables: seq<seq<Record>>, i: nat)
    requires i < |tables|
    ensures Concat(tables) == Concat(tables[..i]) + tables[i] + Concat(tables[i + 1..])
  {
    ConcatStep(tables, i);
    SplitAt(tables, i + 1);
    ConcatAppend(tables[..i + 1], tables[i + 1..]);
  }

  /** Fails when no data file was found; otherwise reads every file in the
      order found and returns their rows stacked in that order. The files
      are given already parsed, one table each. */
  method ExtractData(files: seq<seq<Record>>) returns (result: Result<seq<Record>, ExtractError>)
    ensures files == [] <==> result.Failure?
    ensures files == [] ==> result == Failure(NoCsvFiles)
    ensures files != [] ==> result == Success(Concat(files))
    ensures result.Success? ==> |result.value| == TotalRows(files)
  {
    if files == [] {
      return Failure(NoCsvFiles);
    }
    var frames: seq<seq<Record>> := [];
    for i := 0 to |files|
      invariant frames == files[..i]
    {
      frames := frames + [files[i]];
    }
    assert frames == files;
    ConcatLength(frames);
    result := Success(Concat(frames));
  }
}
