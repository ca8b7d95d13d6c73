/** Which definition makes a list of exceptions bad, and which codes are known (e_exceptions.c). */
module ExceptionChecks {
  import opened ExceptionRegistry

  predicate GoodDef(d: Def) {
    d.name.Some? && 0 < d.code <= 0xff_ffff
  }

  /** Definition `k`, before the terminator, is the first bad one. */
  ghost predicate FirstBad(all: seq<Def>, k: nat) {
    k < |Listed(all)| && !GoodDef(Listed(all)[k]) && forall j :: 0 <= j < k ==> GoodDef(Listed(all)[j])
  }

  /** A list is refused for its first bad definition: with code 93, the one for bad codes, if that has no
      name, and otherwise with code 92, the one for missing names. */
  lemma {:induction false} RefusedFor(all: seq<Def>)
    ensures Verdict(all) == 0 <==> forall j :: 0 <= j < |Listed(all)| ==> GoodDef(Listed(all)[j])
    ensures forall k: nat :: FirstBad(all, k) ==> Verdict(all) == if Listed(all)[k].name.None? then 93 else 92
    decreases |all|
  {
    if all != [] && !Terminator(all[0]) {
      RefusedFor(all[1..]);
      var l, t := Listed(all), Listed(all[1..]);
      assert l == [all[0]] + t;
      assert forall j :: 0 <= j < |t| ==> t[j] == l[j + 1];
      if GoodDef(all[0]) {
        forall j | 0 <= j < |l| && forall i :: 0 <= i < |t| ==> GoodDef(t[i]) ensures GoodDef(l[j]) {
          if j > 0 { assert l[j] == t[j - 1]; }
        }
        forall k: nat | FirstBad(all, k) ensures k > 0 && FirstBad(all[1..], k - 1) {
          assert l[0] == all[0];
          assert forall j :: 0 <= j < k - 1 ==> t[j] == l[j + 1];
        }
      } else {
        assert l[0] == all[0];
      }
    }
  }

  /** Code `x` is that of entry `e` of block `i`. */
  predicate CodeOf(bs: Blocks, x: int, i: nat, e: nat) {
    i < |bs| && bs[i].Some? && e < |bs[i].value.entries| && e < 0x100_0000 && x == i * 0x100_0000 + e
  }

  /** A code leads to an entry if and only if some block has one for it; codes that are negative, or have
      more than 31 bits, do not. */
  lemma KnownIff(bs: Blocks, x: int)
    requires Valid(bs)
    ensures GetEntry(bs, x).Found? <==> exists i: nat, e: nat :: CodeOf(bs, x, i, e)
    ensures forall i: nat, e: nat :: CodeOf(bs, x, i, e) ==> GetEntry(bs, x) == Found(bs[i].value.entries[e])
    ensures x < 0 || x >= 0x8000_0000 ==> GetEntry(bs, x) == Missing("<exception code out of range>")
  {
    hide Valid;
    assert |bs| == EXCEPTION_BLOCKS by { Size(bs); }
    forall i: nat, e: nat | CodeOf(bs, x, i, e) ensures GetEntry(bs, x) == Found(bs[i].value.entries[e]) {
      EntryAt(bs, x, i, e);
    }
    if GetEntry(bs, x).Found? {
      assert CodeOf(bs, x, x / BLOCK_SIZE, x % BLOCK_SIZE);
    }
  }

  lemma Size(bs: Blocks)
    requires Valid(bs)
    ensures |bs| == EXCEPTION_BLOCKS
  {
  }
}
