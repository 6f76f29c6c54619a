/** CSV input as the importers see it after fgetcsv: one row of fields per line. */
module Csv {
  import opened Wrappers

  type Row = seq<string>

  /**
   * A row with the three fields (code, city, county) both importers read.
   * Reading a missing field raises an "Undefined array key" warning, which
   * the framework turns into an exception.
   */
  predicate Complete(row: Row) {
    |row| >= 3
  }

  predicate AllComplete(rows: seq<Row>) {
    forall i :: 0 <= i < |rows| ==> Complete(rows[i])
  }

  lemma AllCompleteSnoc(prefix: seq<Row>, last: Row)
    ensures AllComplete(prefix + [last]) <==> AllComplete(prefix) && Complete(last)
  {
    var rows := prefix + [last];
    assert rows[|prefix|] == last;
    assert forall i :: 0 <= i < |prefix| ==> rows[i] == prefix[i];
  }

  /** The lines left after discarding the first n with fgetcsv; an empty file leaves none. */
  function SkipLines(lines: seq<Row>, n: nat): (r: seq<Row>)
    ensures |r| == if |lines| <= n then 0 else |lines| - n
    ensures forall i :: 0 <= i < |r| ==> r[i] == lines[i + n]
  {
    if |lines| <= n then [] else lines[n..]
  }

  /**
   * How many data rows a loop reaches when the storage engine raises while
   * handling row `storageFailsAt`, if it raises at all.
   */
  function Reached(data: seq<Row>, storageFailsAt: Option<nat>): (n: nat)
    ensures n <= |data|
    ensures n < |data| <==> storageFailsAt.Some? && storageFailsAt.value < |data|
    ensures n < |data| ==> n == storageFailsAt.value
  {
    if storageFailsAt.Some? && storageFailsAt.value < |data| then storageFailsAt.value else |data|
  }

  /** A non-empty run of rows is its rows up to the last one, then the last one. */
  lemma SplitLast(rows: seq<Row>)
    requires rows != []
    ensures rows == rows[..|rows| - 1] + [rows[|rows| - 1]]
  {
  }

  /** The rows read after one more pass of a loop over `data`. */
  lemma PrefixSnoc(data: seq<Row>, i: nat)
    requires i < |data|
    ensures data[..i + 1] == data[..i] + [data[i]]
    ensures data[..i + 1][..i] == data[..i] && data[..i + 1][i] == data[i]
  {
  }

  /** A loop that reached the end has read all of `data`. */
  lemma WholePrefix(data: seq<Row>)
    ensures data[..|data|] == data
  {
  }
}
