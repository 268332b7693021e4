/** The flow splitter: the capture table is sorted by timestamp, every row
    is labelled with its flow key "src_dst_proto", and each flow (in the
    ascending order of its key) is sorted by timestamp again, given an IPD
    column and written to preprocessed/flows/<flow>.csv. */
module FlowSplitter {
  import opened Common

  const OutDir := "preprocessed/flows"

  /** One row of the capture table. */
  datatype CaptureRow = CaptureRow(ts: real, src: string, dst: string, sport: int, dport: int,
                                   proto: string, length: int)

  /** One row of a flow file: the capture row with its flow key and IPD. */
  datatype FlowRow = FlowRow(ts: real, src: string, dst: string, sport: int, dport: int,
                             proto: string, length: int, flow: string, ipd: real)

  /** A written flow file: its path and its rows. */
  datatype FlowFile = FlowFile(path: string, rows: seq<FlowRow>)

  function Ts(r: CaptureRow): real { r.ts }

  /** The flow key "src_dst_proto". */
  function FlowKey(r: CaptureRow): string
  {
    r.src + "_" + r.dst + "_" + r.proto
  }

  /** For addresses without '_' (IPv4 and IPv6 text has none), two rows
      fall in one flow exactly when source, destination and protocol all
      agree; ports and lengths play no part, and the key is directed, so
      A to B and B to A are two flows. */
  lemma FlowKeyInjective(r: CaptureRow, s: CaptureRow)
    requires '_' !in r.src && '_' !in r.dst && '_' !in s.src && '_' !in s.dst
    ensures FlowKey(r) == FlowKey(s) <==> r.src == s.src && r.dst == s.dst && r.proto == s.proto
  {
    assert FlowKey(r) == r.src + "_" + (r.dst + "_" + r.proto);
    assert FlowKey(s) == s.src + "_" + (s.dst + "_" + s.proto);
    UnderscoreJoinInjective(r.src, r.dst + "_" + r.proto, s.src, s.dst + "_" + s.proto);
    UnderscoreJoinInjective(r.dst, r.proto, s.dst, s.proto);
  }

  // ----- the order of group keys: lexicographic by code point -----

  predicate LexLe(a: string, b: string)
  {
    |a| == 0 || (|b| > 0 && (a[0] < b[0] || (a[0] == b[0] && LexLe(a[1..], b[1..]))))
  }

  lemma {:induction false} LexLeTotal(a: string, b: string)
    ensures LexLe(a, b) || LexLe(b, a)
  {
    if |a| > 0 && |b| > 0 && a[0] == b[0] {
      LexLeTotal(a[1..], b[1..]);
    }
  }

  lemma {:induction false} LexLeAntisymmetric(a: string, b: string)
    requires LexLe(a, b) && LexLe(b, a)
    ensures a == b
  {
    if |a| > 0 && |b| > 0 {
      LexLeAntisymmetric(a[1..], b[1..]);
      assert a == [a[0]] + a[1..] && b == [b[0]] + b[1..];
    }
  }

  lemma {:induction false} LexLeTransitive(a: string, b: string, c: string)
    requires LexLe(a, b) && LexLe(b, c)
    ensures LexLe(a, c)
  {
    if |a| > 0 && a[0] == b[0] && b[0] == c[0] {
      LexLeTransitive(a[1..], b[1..], c[1..]);
    }
  }

  /** Strictly ascending: sorted, and so without repetitions. */
  predicate Ascending(t: seq<string>)
  {
    forall i, j :: 0 <= i < j < |t| ==> LexLe(t[i], t[j]) && t[i] != t[j]
  }

  /** An element above every element of an ascending list extends it. */
  lemma AscendingSnoc(t: seq<string>, x: string)
    requires Ascending(t)
    requires forall y :: y in t ==> LexLe(y, x) && y != x
    ensures Ascending(t + [x])
  {
    var r := t + [x];
    forall i, j | 0 <= i < j < |r| ensures LexLe(r[i], r[j]) && r[i] != r[j] {
      if j == |t| {
        assert r[i] in t;
      }
    }
  }

  /** Every element of an ascending list lies strictly below a key that is
      above its last element. */
  lemma BelowLast(t: seq<string>, x: string)
    requires Ascending(t) && |t| > 0
    requires LexLe(t[|t| - 1], x) && t[|t| - 1] != x
    ensures forall y :: y in t ==> LexLe(y, x) && y != x
  {
    var last := t[|t| - 1];
    forall y | y in t ensures LexLe(y, x) && y != x {
      var i :| 0 <= i < |t| && t[i] == y;
      if i < |t| - 1 {
        LexLeTransitive(y, last, x);
        if y == x {
          LexLeAntisymmetric(last, x);
        }
      }
    }
  }

  /** Adds a key to an ascending list of distinct keys, in its place. */
  function InsertKey(t: seq<string>, k: string): (r: seq<string>)
    requires Ascending(t)
    ensures Ascending(r)
    ensures forall x :: x in r <==> x in t || x == k
  {
    if k in t then t
    else if |t| == 0 then [k]
    else
      var last := t[|t| - 1];
      if LexLe(last, k) then
        BelowLast(t, k);
        AscendingSnoc(t, k);
        t + [k]
      else
        var t' := t[..|t| - 1];
        assert t == t' + [last];
        LexLeTotal(last, k);
        var r' := InsertKey(t', k);
        assert forall y :: y in t' ==> LexLe(y, last) && y != last by {
          forall y | y in t' ensures LexLe(y, last) && y != last {
            var i :| 0 <= i < |t'| && t'[i] == y;
            assert t[i] == y;
          }
        }
        AscendingSnoc(r', last);
        r' + [last]
  }

  /** The distinct flow keys of a table, in ascending order (groupby's order). */
  function FlowKeys(s: seq<CaptureRow>): (keys: seq<string>)
    ensures Ascending(keys)
    ensures forall k :: k in keys <==> exists i :: 0 <= i < |s| && FlowKey(s[i]) == k
  {
    if |s| == 0 then []
    else
      var keys' := FlowKeys(s[..|s| - 1]);
      var r := InsertKey(keys', FlowKey(s[|s| - 1]));
      assert forall k :: k in r <==> exists i :: 0 <= i < |s| && FlowKey(s[i]) == k by {
        forall k ensures k in r <==> exists i :: 0 <= i < |s| && FlowKey(s[i]) == k {
          if k in keys' {
            var i :| 0 <= i < |s| - 1 && FlowKey(s[..|s| - 1][i]) == k;
            assert FlowKey(s[i]) == k;
          }
          if exists i :: 0 <= i < |s| && FlowKey(s[i]) == k {
            var i :| 0 <= i < |s| && FlowKey(s[i]) == k;
            if i < |s| - 1 {
              assert FlowKey(s[..|s| - 1][i]) == k;
            }
          }
        }
      }
      r
  }

  // ----- groups -----

  /** The rows of a flow, in table order. */
  function Group(s: seq<CaptureRow>, flow: string): (g: seq<CaptureRow>)
    ensures |g| <= |s|
    ensures forall r :: r in g <==> r in s && FlowKey(r) == flow
  {
    if |s| == 0 then []
    else
      var last := s[|s| - 1];
      assert s == s[..|s| - 1] + [last];
      Group(s[..|s| - 1], flow) + (if FlowKey(last) == flow then [last] else [])
  }

  /** A flow's table: its rows sorted by timestamp, labelled with the flow
      key, with the IPD column (0 first, then the gap to the previous row). */
  function FlowTable(g: seq<CaptureRow>, flow: string): (t: seq<FlowRow>)
    ensures |t| == |g|
  {
    var sorted := SortBy(g, Ts);
    Labelled(sorted, flow, IpdColumn(Keys(sorted, Ts)))
  }

  /** The rows with the flow key and the given IPDs added. */
  function Labelled(rows: seq<CaptureRow>, flow: string, ipd: seq<real>): (t: seq<FlowRow>)
    requires |ipd| == |rows|
    ensures |t| == |rows|
  {
    seq(|rows|, i requires 0 <= i < |rows| =>
      var r := rows[i];
      FlowRow(r.ts, r.src, r.dst, r.sport, r.dport, r.proto, r.length, flow, ipd[i]))
  }

  /** The capture row a flow row was made from. */
  function Source(f: FlowRow): CaptureRow
  {
    CaptureRow(f.ts, f.src, f.dst, f.sport, f.dport, f.proto, f.length)
  }

  function Sources(t: seq<FlowRow>): (s: seq<CaptureRow>)
    ensures |s| == |t|
  {
    seq(|t|, i requires 0 <= i < |t| => Source(t[i]))
  }

  function TableTimes(t: seq<FlowRow>): seq<real>
  {
    seq(|t|, i requires 0 <= i < |t| => t[i].ts)
  }

  predicate TableShaped(t: seq<FlowRow>, flow: string)
  {
    && NonDecreasing(TableTimes(t))
    && (forall i :: 0 <= i < |t| ==> t[i].flow == flow)
    && (|t| > 0 ==> t[0].ipd == 0.0)
    && (forall i :: 0 < i < |t| ==> t[i].ipd == t[i].ts - t[i - 1].ts)
    && (forall i :: 0 <= i < |t| ==> t[i].ipd >= 0.0)
  }

  /** Labelling rows sorted by timestamp with their IPD column gives a
      well-shaped table made of exactly those rows. */
  lemma LabelledShape(sorted: seq<CaptureRow>, flow: string)
    requires SortedBy(sorted, Ts)
    ensures TableShaped(Labelled(sorted, flow, IpdColumn(Keys(sorted, Ts))), flow)
    ensures Sources(Labelled(sorted, flow, IpdColumn(Keys(sorted, Ts)))) == sorted
  {
    var ts := Keys(sorted, Ts);
    var t := Labelled(sorted, flow, IpdColumn(ts));
    assert TableTimes(t) == ts;
    IpdColumnShape(ts);
    assert NonDecreasing(ts);
    assert Sources(t) == sorted;
  }

  /** Within a flow file timestamps never decrease, every row carries the
      flow key, the first IPD is 0, each later one is the gap to the row
      before, and so none is negative; its rows are those of the group. */
  lemma FlowTableShape(g: seq<CaptureRow>, flow: string)
    ensures TableShaped(FlowTable(g, flow), flow)
    ensures multiset(Sources(FlowTable(g, flow))) == multiset(g)
  {
    LabelledShape(SortBy(g, Ts), flow);
  }

  /** os.path.join(OutDir, flow + ".csv"). */
  function FlowPath(flow: string): string
  {
    OutDir + "/" + flow + ".csv"
  }

  /** Different flows are written to different paths. */
  lemma FlowPathInjective(a: string, b: string)
    requires FlowPath(a) == FlowPath(b)
    ensures a == b
  {
    var n := |OutDir + "/"|;
    assert a == FlowPath(a)[n..|FlowPath(a)| - 4];
    assert b == FlowPath(b)[n..|FlowPath(b)| - 4];
  }

  /** The files written for the listed flows of the sorted table, in
      order, each made by `table` from the flow's group. */
  function FilesFor(sorted: seq<CaptureRow>, keys: seq<string>,
                    table: (seq<CaptureRow>, string) -> seq<FlowRow>): (files: seq<FlowFile>)
    ensures |files| == |keys|
  {
    if |keys| == 0 then []
    else [FlowFile(FlowPath(keys[0]), table(Group(sorted, keys[0]), keys[0]))]
         + FilesFor(sorted, keys[1..], table)
  }

  /** The whole split: one file per flow key, in ascending key order. */
  function Split(rows: seq<CaptureRow>): seq<FlowFile>
  {
    var sorted := SortBy(rows, Ts);
    FilesFor(sorted, FlowKeys(sorted), FlowTable)
  }

  /** Splits a capture table into flow files, returning the written paths. */
  method SplitFlows(rows: seq<CaptureRow>) returns (paths: seq<string>, files: seq<FlowFile>)
    ensures files == Split(rows)
    ensures |paths| == |files| && forall i :: 0 <= i < |files| ==> paths[i] == files[i].path
  {
    var sorted := SortBy(rows, Ts);
    paths, files := WriteFlows(sorted, FlowKeys(sorted), FlowTable);
  }

  /** The loop over the groups: one file and one path per flow key. */
  method WriteFlows(sorted: seq<CaptureRow>, keys: seq<string>,
                    table: (seq<CaptureRow>, string) -> seq<FlowRow>)
    returns (paths: seq<string>, files: seq<FlowFile>)
    ensures files == FilesFor(sorted, keys, table)
    ensures |paths| == |files| && forall i :: 0 <= i < |files| ==> paths[i] == files[i].path
  {
    paths, files := [], [];
    for i := 0 to |keys|
      invariant files + FilesFor(sorted, keys[i..], table) == FilesFor(sorted, keys, table)
      invariant |paths| == |files| && forall j :: 0 <= j < |files| ==> paths[j] == files[j].path
    {
      var flow := keys[i];
      var g := table(Group(sorted, flow), flow);
      var out := FlowPath(flow);
      assert keys[i..][1..] == keys[i + 1..];
      files := files + [FlowFile(out, g)];
      paths := paths + [out];
    }
    assert files + [] == files;
  }

  /** The number of rows written over all files. */
  function TotalRows(files: seq<FlowFile>): nat
  {
    if |files| == 0 then 0 else |files[0].rows| + TotalRows(files[1..])
  }

  /** How many rows the groups of the listed flows hold together. */
  function GroupSizes(s: seq<CaptureRow>, keys: seq<string>): nat
  {
    if |keys| == 0 then 0 else |Group(s, keys[0])| + GroupSizes(s, keys[1..])
  }

  /** Files made by a table function that keeps the group's size hold
      as many rows as the groups. */
  lemma {:induction false} TotalRowsOfFiles(s: seq<CaptureRow>, keys: seq<string>,
                                            table: (seq<CaptureRow>, string) -> seq<FlowRow>)
    requires forall g, flow :: |table(g, flow)| == |g|
    ensures TotalRows(FilesFor(s, keys, table)) == GroupSizes(s, keys)
  {
    if |keys| > 0 {
      TotalRowsOfFiles(s, keys[1..], table);
    }
  }

  /** One more row adds one to exactly the group of its own flow. */
  lemma {:induction false} GroupSizesSnoc(s: seq<CaptureRow>, x: CaptureRow, keys: seq<string>)
    requires forall i, j :: 0 <= i < j < |keys| ==> keys[i] != keys[j]
    ensures GroupSizes(s + [x], keys) == GroupSizes(s, keys) + (if FlowKey(x) in keys then 1 else 0)
  {
    if |keys| > 0 {
      var s' := s + [x];
      assert s'[..|s'| - 1] == s;
      GroupSizesSnoc(s, x, keys[1..]);
      assert FlowKey(x) in keys <==> FlowKey(x) == keys[0] || FlowKey(x) in keys[1..];
    }
  }

  /** Distinct keys that cover every row partition the table. */
  lemma {:induction false} GroupsPartition(s: seq<CaptureRow>, keys: seq<string>)
    requires forall i, j :: 0 <= i < j < |keys| ==> keys[i] != keys[j]
    requires forall r :: r in s ==> FlowKey(r) in keys
    ensures GroupSizes(s, keys) == |s|
  {
    if |s| == 0 {
      GroupSizesEmpty(keys);
    } else {
      var s' := s[..|s| - 1];
      assert s == s' + [s[|s| - 1]];
      GroupsPartition(s', keys);
      GroupSizesSnoc(s', s[|s| - 1], keys);
    }
  }

  lemma {:induction false} GroupSizesEmpty(keys: seq<string>)
    ensures GroupSizes([], keys) == 0
  {
    if |keys| > 0 {
      GroupSizesEmpty(keys[1..]);
    }
  }

  /** Every captured row is written exactly once: the files hold as many
      rows as the capture table. */
  lemma SplitKeepsEveryRow(rows: seq<CaptureRow>)
    ensures TotalRows(Split(rows)) == |rows|
  {
    var sorted := SortBy(rows, Ts);
    var keys := FlowKeys(sorted);
    TotalRowsOfFiles(sorted, keys, FlowTable);
    forall r | r in sorted ensures FlowKey(r) in keys {
      var i :| 0 <= i < |sorted| && sorted[i] == r;
    }
    GroupsPartition(sorted, keys);
    assert |multiset(sorted)| == |multiset(rows)|;
  }

  /** Each row belongs to the group of exactly one listed flow key, and one
      path is written per distinct key. */
  lemma OneGroupPerRow(rows: seq<CaptureRow>, x: CaptureRow)
    requires x in rows
    ensures var keys := FlowKeys(SortBy(rows, Ts));
      && FlowKey(x) in keys
      && (forall i :: 0 <= i < |keys| ==> (x in Group(SortBy(rows, Ts), keys[i]) <==> keys[i] == FlowKey(x)))
  {
    var sorted := SortBy(rows, Ts);
    assert x in multiset(rows);
    var i :| 0 <= i < |sorted| && sorted[i] == x;
  }

  /** The written paths are pairwise different and name the flows' files. */
  lemma SplitPathsDistinct(rows: seq<CaptureRow>)
    ensures var files := Split(rows);
      var keys := FlowKeys(SortBy(rows, Ts));
      && |files| == |keys|
      && (forall i :: 0 <= i < |files| ==> files[i].path == FlowPath(keys[i]))
      && (forall i, j :: 0 <= i < j < |files| ==> files[i].path != files[j].path)
  {
    var sorted := SortBy(rows, Ts);
    var keys := FlowKeys(sorted);
    FilesForAt(sorted, keys, FlowTable);
    var files := Split(rows);
    forall i, j | 0 <= i < j < |files| ensures files[i].path != files[j].path {
      if files[i].path == files[j].path {
        FlowPathInjective(keys[i], keys[j]);
      }
    }
  }

  /** The i-th file is that of the i-th flow key. */
  lemma {:induction false} FilesForAt(s: seq<CaptureRow>, keys: seq<string>,
                                      table: (seq<CaptureRow>, string) -> seq<FlowRow>)
    ensures forall i :: 0 <= i < |keys| ==>
      FilesFor(s, keys, table)[i] == FlowFile(FlowPath(keys[i]), table(Group(s, keys[i]), keys[i]))
  {
    if |keys| > 0 {
      FilesForAt(s, keys[1..], table);
      var f := FilesFor(s, keys, table);
      forall i | 1 <= i < |keys|
        ensures f[i] == FlowFile(FlowPath(keys[i]), table(Group(s, keys[i]), keys[i]))
      {
        assert f[i] == FilesFor(s, keys[1..], table)[i - 1];
        assert keys[1..][i - 1] == keys[i];
      }
    }
  }
}
