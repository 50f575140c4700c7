/** `file_number`: reports 1 for every file, so that the summed table
    counts the files analysed. */
module FileNumber {
  import opened Syntax
  import opened Common
  import opened Stats

  /** The tree, the source bytes and the benchmark name are not looked at,
      and the statistics table comes back as it was given. */
  function FileNumber(t: Node, src: seq<bv8>, stats: Stats, benchmark: string): (r: (Metric, Stats))
    ensures r.0.name == "file_number" && r.0.value == 1.0
    ensures r.1 == stats
  {
    (Metric("file_number", 1.0), stats)
  }

  /** Summing the metric over a sequence of files counts them. */
  lemma {:induction false} FileNumberCounts(n: nat, t: Node, src: seq<bv8>, benchmark: string)
    ensures Get(FileNumberTotal(n, t, src, benchmark), "file_number") == n as real
  {
    if n > 0 {
      FileNumberCounts(n - 1, t, src, benchmark);
    }
  }

  /** The table after adding the metric of `n` files in with `add_or_insert`. */
  function FileNumberTotal(n: nat, t: Node, src: seq<bv8>, benchmark: string): Stats
  {
    if n == 0 then map[]
    else
      var s := FileNumberTotal(n - 1, t, src, benchmark);
      var m := FileNumber(t, src, s, benchmark).0;
      AddOrInsert(s, m.name, m.value)
  }
}
