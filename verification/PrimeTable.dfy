/**
 Where the table sizes of cpp-test/test-fastmod.c come from: the search of cpp-test/test-prime.cpp started
 at 1.23 times a power of two.
 */
module PrimeTable {
  import opened FastMod
  import opened PrimeSearch

  function Pow2(i: nat): nat { if i == 0 then 1 else 2 * Pow2(i - 1) }

  /** `num * 1.23`, cut to an integer. */
  function StartOf(i: nat): nat { 123 * Pow2(i) / 100 }

  /** Each entry of the table beside its power of two. */
  const ENTRIES: seq<(nat, nat)> := [
    (1, 1), (2, 3), (4, 5), (8, 11), (16, 19), (32, 41), (64, 79), (128, 157), (256, 317), (512, 631),
    (1024, 1259), (2048, 2521), (4096, 5039), (8192, 10079), (16384, 20161), (32768, 40343),
    (65536, 80611), (131072, 161221), (262144, 322459), (524288, 644881), (1048576, 1289749),
    (2097152, 2579513), (4194304, 5158999), (8388608, 10317991), (16777216, 20635981),
    (33554432, 41271991), (67108864, 82543913), (134217728, 165087817), (268435456, 330175613),
    (536870912, 660351239), (1073741824, 1320702451)
  ]

  lemma {:induction false} PowersAre(i: nat)
    requires i <= 30
    ensures |ENTRIES| == 31 && ENTRIES[i].0 == Pow2(i)
  {
    if i > 0 {
      PowersAre(i - 1);
      assert ENTRIES[i].0 == 2 * ENTRIES[i - 1].0;
    }
  }

  lemma EntriesAre(i: nat)
    requires i <= 30
    ensures |TABLE| == |ENTRIES| == 31 && ENTRIES[i].1 == TABLE[i].0
  {
  }

  lemma PairIsNear(i: nat)
    requires 1 <= i <= 30
    ensures |ENTRIES| == 31
    ensures var (p, k) := ENTRIES[i]; 123 * p < 100 * k + 100 && 100 * k <= 123 * p + 4000 && k % 2 == 1 && (k - 1) % 101 != 0
  {
  }

  /** The entry is one that the search could have stopped at, at most 40 behind its start. */
  lemma EntryIsNear(i: nat)
    requires 1 <= i <= 30
    ensures |TABLE| == 31 && StartOf(i) <= TABLE[i].0 <= StartOf(i) + 40
    ensures TABLE[i].0 % 2 == 1 && (TABLE[i].0 - 1) % 101 != 0
  {
    PowersAre(i);
    EntriesAre(i);
    PairIsNear(i);
  }
}
