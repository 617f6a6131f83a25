/**
 * The strings mstream builds with `sprintf`: the per-configuration temporary
 * folder, each rank's folder and file below it, and the folder rank 0
 * deletes at the end.
 */
module Paths {

  const TMP_FOLDER: string := "tmp"
  const RANK_FILE_NAME: string := "mstream.tmp"

  predicate IsDigit(c: char)
  {
    '0' <= c <= '9'
  }

  function DigitValue(c: char): (d: nat)
    requires IsDigit(c)
    ensures d < 10
  {
    c as int - '0' as int
  }

  function DigitChar(d: nat): (c: char)
    requires d < 10
    ensures IsDigit(c) && DigitValue(c) == d
  {
    ('0' as int + d) as char
  }

  /** Decimal digits of n, most significant first, without leading zeros. */
  function NatDigits(n: nat): (s: string)
    ensures |s| >= 1
    ensures forall i :: 0 <= i < |s| ==> IsDigit(s[i])
    ensures n > 0 ==> s[0] != '0'
  {
    if n < 10 then [DigitChar(n)] else NatDigits(n / 10) + [DigitChar(n % 10)]
  }

  /** `%d`: a minus sign for negative values, then the decimal digits. */
  function FormatInt(n: int): (s: string)
    ensures |s| >= 1
    ensures (s[0] == '-') <==> n < 0
    ensures forall i :: 0 <= i < |s| ==> IsDigit(s[i]) || (i == 0 && s[i] == '-')
  {
    if n < 0 then "-" + NatDigits(-n) else NatDigits(n)
  }

  /** The value of a string of decimal digits. */
  function DigitsValue(s: string): nat
    requires forall i :: 0 <= i < |s| ==> IsDigit(s[i])
  {
    if s == [] then 0
    else DigitsValue(s[..|s| - 1]) * 10 + DigitValue(s[|s| - 1])
  }

  /** Reading a `%d` field back. */
  function ParseInt(s: string): int
    requires |s| >= 1
    requires forall i :: 0 <= i < |s| ==> IsDigit(s[i]) || (i == 0 && s[i] == '-')
  {
    if s[0] == '-' then 0 - DigitsValue(s[1..]) else DigitsValue(s)
  }

  lemma {:induction false} NatDigitsValue(n: nat)
    ensures DigitsValue(NatDigits(n)) == n
  {
    if n >= 10 {
      NatDigitsValue(n / 10);
      var s := NatDigits(n / 10) + [DigitChar(n % 10)];
      assert s[..|s| - 1] == NatDigits(n / 10);
    }
  }

  /** `%d` loses nothing: the number can be read back from its text. */
  lemma FormatIntRoundTrip(n: int)
    ensures ParseInt(FormatInt(n)) == n
  {
    if n < 0 {
      NatDigitsValue(-n);
      assert FormatInt(n)[1..] == NatDigits(-n);
    } else {
      NatDigitsValue(n);
    }
  }

  /** Distinct numbers print as distinct text. */
  lemma FormatIntInjective(a: int, b: int)
    requires FormatInt(a) == FormatInt(b)
    ensures a == b
  {
    FormatIntRoundTrip(a);
    FormatIntRoundTrip(b);
  }

  /** `"%s/%s"` of folder and TMP_FOLDER: the folder all runs write below,
      and the one rank 0 deletes at the end. */
  function CleanupPath(folder: string): string
  {
    folder + "/" + TMP_FOLDER
  }

  /** `"%d_%d_%d_%d_%d"` of num_procs, benchmark, impl_type, read_file, ptype. */
  function ConfigName(numProcs: int, benchmark: int, impl: int, readFile: int, ptype: int): string
  {
    FormatInt(numProcs) + "_" + FormatInt(benchmark) + "_" + FormatInt(impl)
      + "_" + FormatInt(readFile) + "_" + FormatInt(ptype)
  }

  /** `"%s/%s/%d_%d_%d_%d_%d"`: the folder of one configuration. */
  function TempPath(folder: string, numProcs: int, benchmark: int, impl: int,
                    readFile: int, ptype: int): string
  {
    CleanupPath(folder) + "/" + ConfigName(numProcs, benchmark, impl, readFile, ptype)
  }

  /** `"%s/p%d"` of the temporary folder and the rank. */
  function RankDir(tmpPath: string, rank: int): string
  {
    tmpPath + "/p" + FormatInt(rank)
  }

  /** `"%s/p%d/mstream.tmp"` of the temporary folder and the rank. */
  function RankFile(tmpPath: string, rank: int): string
  {
    RankDir(tmpPath, rank) + "/" + RANK_FILE_NAME
  }

  lemma ExtendPrefix(p: string, a: string, b: string)
    requires p <= a
    ensures p <= a + b
  {
    assert (a + b)[..|p|] == a[..|p|];
  }

  /** The folder deleted at the end encloses every folder and file the run
      created: each path starts with it followed by a separator. */
  lemma CleanupCoversRunFiles(folder: string, numProcs: int, benchmark: int, impl: int,
                              readFile: int, ptype: int, rank: int)
    ensures var prefix := CleanupPath(folder) + "/";
            var tmp := TempPath(folder, numProcs, benchmark, impl, readFile, ptype);
            && prefix <= tmp
            && prefix <= RankDir(tmp, rank)
            && prefix <= RankFile(tmp, rank)
  {
    var prefix := CleanupPath(folder) + "/";
    var tmp := TempPath(folder, numProcs, benchmark, impl, readFile, ptype);
    ExtendPrefix(prefix, prefix, ConfigName(numProcs, benchmark, impl, readFile, ptype));
    ExtendPrefix(prefix, tmp, "/p");
    ExtendPrefix(prefix, tmp + "/p", FormatInt(rank));
    ExtendPrefix(prefix, RankDir(tmp, rank), "/");
    ExtendPrefix(prefix, RankDir(tmp, rank) + "/", RANK_FILE_NAME);
  }

  /** A rank folder determines its rank, and a rank file its folder. */
  lemma RankPathsDecompose(tmpPath: string, rank: int)
    ensures ParseInt(RankDir(tmpPath, rank)[|tmpPath| + 2..]) == rank
    ensures var f := RankFile(tmpPath, rank);
            |f| >= 1 + |RANK_FILE_NAME| && f[..|f| - 1 - |RANK_FILE_NAME|] == RankDir(tmpPath, rank)
  {
    assert RankDir(tmpPath, rank)[|tmpPath| + 2..] == FormatInt(rank);
    FormatIntRoundTrip(rank);
    var f := RankFile(tmpPath, rank);
    assert f == RankDir(tmpPath, rank) + ("/" + RANK_FILE_NAME);
  }

  /** No two ranks share a folder, nor a backing file. */
  lemma RankFilesDistinct(tmpPath: string, r1: int, r2: int)
    requires r1 != r2
    ensures RankDir(tmpPath, r1) != RankDir(tmpPath, r2)
    ensures RankFile(tmpPath, r1) != RankFile(tmpPath, r2)
  {
    RankPathsDecompose(tmpPath, r1);
    RankPathsDecompose(tmpPath, r2);
  }

  /** The default configuration with 4 ranks, sequential mode, the
      in-memory backend. */
  lemma DefaultPaths()
    ensures TempPath(".", 4, 0, 0, 0, 0) == "./tmp/4_0_0_0_0"
    ensures RankFile("./tmp/4_0_0_0_0", 3) == "./tmp/4_0_0_0_0/p3/mstream.tmp"
    ensures CleanupPath(".") == "./tmp"
  {
  }
}
