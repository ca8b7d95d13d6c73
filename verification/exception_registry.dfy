/** The registry of exception codes: modules register blocks of codes of their own, and get an
    offset to add to them (e_exceptions.c). */
module ExceptionRegistry {
  import opened Values

  const EXCEPTION_BITS: nat := 24
  const BLOCK_SIZE: int := 0x100_0000             // 1 << EXCEPTION_BITS
  const EXCEPTION_MAX: int := BLOCK_SIZE - 1
  const EXCEPTION_BLOCKS: nat := 128              // 1 << (31 - EXCEPTION_BITS)

  const XFEWARGS: int := 24
  const XNEEDNAME: int := 92
  const XBADXCODE: int := 93
  const XWIDEXRANGE: int := 94
  const XNOFREEBLOCKS: int := 95

  /** A definition as a module writes it. The pointers of the original may be null. */
  datatype Def = Def(code: int, name: Option<string>, description: Option<string>)

  datatype Entry = Entry(name: Option<string>, description: Option<string>)

  const BLANK: Entry := Entry(None, None)

  datatype Block = Block(base: int, entries: seq<Entry>)

  type Blocks = seq<Option<Block>>

  /** `Undefined` stands for what happens when a null name is compared, or an entry past the
      end of a block. */
  datatype Outcome = Base(base: int) | Failed(x: int) | Undefined

  // ---------------------------------------------------------------------------------------
  // Looking up
  // ---------------------------------------------------------------------------------------

  datatype Lookup = Found(e: Entry) | Missing(message: string)

  /** `get_xentry`. A negative code is a very large block number. */
  function GetEntry(bs: Blocks, x: int): Lookup {
    var block, entry := x / BLOCK_SIZE, x % BLOCK_SIZE;
    if block < 0 || block >= EXCEPTION_BLOCKS || block >= |bs| then Missing("<exception code out of range>")
    else
      match bs[block]
      case None => Missing("<undefined exception range>")
      case Some(xb) => if entry >= |xb.entries| then Missing("<undefined exception>") else Found(xb.entries[entry])
  }

  /** `eel_x_name`. */
  function Name(bs: Blocks, x: int): string {
    match GetEntry(bs, x)
    case Missing(message) => message
    case Found(e) => if e.name.Some? then e.name.value else "<unnamed exception>"
  }

  // ---------------------------------------------------------------------------------------
  // Checking a list of definitions
  // ---------------------------------------------------------------------------------------

  predicate Terminator(d: Def) {
    d.code == 0 && d.name.None? && d.description.None?
  }

  /** The exception for the first bad definition, if there is one. The two codes are the other
      way around from what their names suggest. */
  function Verdict(defs: seq<Def>): int
    decreases |defs|
  {
    if defs == [] || Terminator(defs[0]) then 0
    else if defs[0].name.None? then XBADXCODE
    else if defs[0].code <= 0 || defs[0].code > EXCEPTION_MAX then XNEEDNAME
    else Verdict(defs[1..])
  }

  /** The definitions before the terminator. An array without one goes on after its end in the
      original; here its end terminates it. */
  function Listed(defs: seq<Def>): (r: seq<Def>)
    decreases |defs|
  {
    if defs == [] || Terminator(defs[0]) then [] else [defs[0]] + Listed(defs[1..])
  }

  function MinCode(defs: seq<Def>): int
    requires defs != []
    decreases |defs|
  {
    if |defs| == 1 then defs[0].code
    else var m := MinCode(defs[..|defs| - 1]); if defs[|defs| - 1].code < m then defs[|defs| - 1].code else m
  }

  function MaxCode(defs: seq<Def>): int
    requires defs != []
    decreases |defs|
  {
    if |defs| == 1 then defs[0].code
    else var m := MaxCode(defs[..|defs| - 1]); if defs[|defs| - 1].code > m then defs[|defs| - 1].code else m
  }

  ghost predicate Good(defs: seq<Def>) {
    forall i :: 0 <= i < |defs| ==> defs[i].name.Some? && 0 < defs[i].code <= EXCEPTION_MAX
  }

  lemma {:induction false} CodeRange(defs: seq<Def>, i: nat)
    requires i < |defs|
    ensures MinCode(defs) <= defs[i].code <= MaxCode(defs)
    ensures (exists k :: 0 <= k < |defs| && defs[k].code == MinCode(defs))
         && (exists k :: 0 <= k < |defs| && defs[k].code == MaxCode(defs))
    decreases |defs|
  {
    if |defs| > 1 {
      var n := |defs| - 1;
      CodeRange(defs[..n], if i < n then i else 0);
      var a :| 0 <= a < n && defs[..n][a].code == MinCode(defs[..n]);
      var b :| 0 <= b < n && defs[..n][b].code == MaxCode(defs[..n]);
      assert defs[a].code == MinCode(defs[..n]) && defs[b].code == MaxCode(defs[..n]);
      assert MinCode(defs) == defs[n].code || MinCode(defs) == defs[a].code;
      assert MaxCode(defs) == defs[n].code || MaxCode(defs) == defs[b].code;
    }
  }

  // ---------------------------------------------------------------------------------------
  // Registering
  // ---------------------------------------------------------------------------------------

  datatype Comparison = Same | Differs | Faults

  /** `already_registered`, for one block of the right size and base: names are compared by
      position, not by code. */
  function Compare(xb: Block, defs: seq<Def>, j: nat): Comparison
    requires j <= |defs|
    decreases |defs| - j
  {
    if j == |defs| then Same
    else if j >= |xb.entries| || xb.entries[j].name.None? || defs[j].name.None? then Faults
    else if xb.entries[j].name != defs[j].name then Differs
    else Compare(xb, defs, j + 1)
  }

  predicate Fits(xb: Block, i: int, min: int, max: int) {
    |xb.entries| == max - min + 1 && xb.base == i * BLOCK_SIZE - min
  }

  datatype Match = Matched(i: nat) | NoMatch | MatchFaults

  function AlreadyRegistered(bs: Blocks, defs: seq<Def>, min: int, max: int, i: nat): (r: Match)
    ensures r.Matched? ==> i <= r.i < |bs| && bs[r.i].Some? && Fits(bs[r.i].value, r.i, min, max)
                           && Compare(bs[r.i].value, defs, 0).Same?
    decreases |bs| - i
  {
    if i >= |bs| then NoMatch
    else if bs[i].None? || !Fits(bs[i].value, i, min, max) then AlreadyRegistered(bs, defs, min, max, i + 1)
    else
      match Compare(bs[i].value, defs, 0)
      case Same => Matched(i)
      case Faults => MatchFaults
      case Differs => AlreadyRegistered(bs, defs, min, max, i + 1)
  }

  /** The entries of a new block, after the first `n` definitions have been put in. */
  function Filled(defs: seq<Def>, n: nat, min: int, size: nat): (r: seq<Entry>)
    requires n <= |defs|
    ensures |r| == size
  {
    if n == 0 then seq(size, _ => BLANK)
    else
      var r, d := Filled(defs, n - 1, min, size), defs[n - 1];
      var e := d.code - min;
      if 0 <= e < size then
        r[e := Entry(if d.name.Some? then d.name else r[e].name,
                     if d.description.Some? then d.description else r[e].description)]
      else r
  }

  function FirstFree(bs: Blocks, i: nat): (r: nat)
    ensures r < |bs| ==> i <= r && bs[r].None?
    ensures forall h :: i <= h < r && h < |bs| ==> bs[h].Some?
    decreases |bs| - i
  {
    if i >= |bs| || bs[i].None? then i else FirstFree(bs, i + 1)
  }

  /** What `eel_x_register` does under its mutex: a new block goes where there is room. */
  function Install(bs: Blocks, defs: seq<Def>): (Blocks, Outcome)
    requires defs != []
  {
    var min, max := MinCode(defs), MaxCode(defs);
    var size := if max >= min then max - min + 1 else 0;
    var i := FirstFree(bs, 1);
    if i >= |bs| then (bs, Failed(-XNOFREEBLOCKS))
    else
      var base := i * BLOCK_SIZE - min;
      (bs[i := Some(Block(base, Filled(defs, |defs|, min, size)))], Base(base))
  }

  /** `eel_x_register`. */
  function Register(bs: Blocks, all: seq<Def>): (Blocks, Outcome) {
    var defs := Listed(all);
    if Verdict(all) != 0 then (bs, Failed(-Verdict(all)))
    else if defs == [] then (bs, Failed(-XFEWARGS))
    else
      var min, max := MinCode(defs), MaxCode(defs);
      if max - min > EXCEPTION_MAX then (bs, Failed(-XWIDEXRANGE))
      else
        match AlreadyRegistered(bs, defs, min, max, 1)
        case MatchFaults => (bs, Undefined)
        case Matched(i) => (bs, Base(bs[i].value.base))
        case NoMatch => Install(bs, defs)
  }

  /** After `eel_x_open_registry`: block 0 has the codes of the VM itself. */
  function OpenRegistry(core: seq<Entry>): (r: Blocks)
    ensures |r| == EXCEPTION_BLOCKS
  {
    [Some(Block(0, core))] + seq(EXCEPTION_BLOCKS - 1, _ => None)
  }

  /** One registration after the other, as long as none of them is undefined. */
  function RegisterAll(bs: Blocks, lists: seq<seq<Def>>): Blocks
    decreases |lists|
  {
    if lists == [] then bs else RegisterAll(Register(bs, lists[0]).0, lists[1..])
  }

  // ---------------------------------------------------------------------------------------
  // The invariant
  // ---------------------------------------------------------------------------------------

  /** Block `i` was made for codes that are in range. */
  ghost predicate BlockOk(xb: Block, i: nat) {
    && 0 < i * BLOCK_SIZE - xb.base
    && i * BLOCK_SIZE - xb.base + |xb.entries| - 1 <= EXCEPTION_MAX
  }

  ghost predicate Valid(bs: Blocks) {
    && |bs| == EXCEPTION_BLOCKS
    && (forall i :: 1 <= i < |bs| && bs[i].Some? ==> BlockOk(bs[i].value, i))
    && (forall i, j :: 1 <= i < j < |bs| && bs[j].Some? ==> bs[i].Some?)
  }

  /** `later` has every block that `bs` has. */
  ghost predicate Extends(later: Blocks, bs: Blocks) {
    |later| == |bs| && forall i :: 0 <= i < |bs| && bs[i].Some? ==> later[i] == bs[i]
  }

  lemma {:induction false} ListedGood(all: seq<Def>)
    requires Verdict(all) == 0
    ensures Good(Listed(all))
    decreases |all|
  {
    if all != [] && !Terminator(all[0]) { ListedGood(all[1..]); }
  }

  lemma RegisterValid(bs: Blocks, all: seq<Def>)
    requires Valid(bs)
    ensures Valid(Register(bs, all).0) && Extends(Register(bs, all).0, bs)
  {
    var defs := Listed(all);
    if Verdict(all) == 0 && defs != [] {
      ListedGood(all);
      CodeRange(defs, 0);
    }
  }

  lemma {:induction false} RegisterAllValid(bs: Blocks, lists: seq<seq<Def>>)
    requires Valid(bs)
    ensures Valid(RegisterAll(bs, lists)) && Extends(RegisterAll(bs, lists), bs)
    decreases |lists|
  {
    hide Register;
    if lists != [] {
      RegisterValid(bs, lists[0]);
      RegisterAllValid(Register(bs, lists[0]).0, lists[1..]);
    }
  }

  // ---------------------------------------------------------------------------------------
  // What a registration means
  // ---------------------------------------------------------------------------------------

  /** The codes of `defs`, offset by `base`, are in block `i`, which has one entry for each. */
  ghost predicate InBlock(bs: Blocks, defs: seq<Def>, base: int, i: nat) {
    && defs != [] && 1 <= i < |bs| && bs[i].Some? && bs[i].value.base == base
    && Fits(bs[i].value, i, MinCode(defs), MaxCode(defs))
  }

  lemma RegisteredBlock(bs: Blocks, all: seq<Def>) returns (i: nat)
    requires Valid(bs) && Register(bs, all).1.Base?
    ensures Good(Listed(all)) && InBlock(Register(bs, all).0, Listed(all), Register(bs, all).1.base, i)
    ensures (Register(bs, all).0 == bs && Compare(bs[i].value, Listed(all), 0).Same?)
            || (MinCode(Listed(all)) <= MaxCode(Listed(all)) && Register(bs, all).0[i].value.entries
                == Filled(Listed(all), |Listed(all)|, MinCode(Listed(all)),
                  MaxCode(Listed(all)) - MinCode(Listed(all)) + 1))
  {
    var defs := Listed(all);
    ListedGood(all);
    CodeRange(defs, 0);
    var found := AlreadyRegistered(bs, defs, MinCode(defs), MaxCode(defs), 1);
    if found.Matched? { i := found.i; } else { i := FirstFree(bs, 1); }
  }

  /** Which entry a code that was handed out leads to. */
  lemma CodeEntry(bs: Blocks, defs: seq<Def>, base: int, i: nat, j: nat) returns (e: nat)
    requires Valid(bs) && Good(defs) && InBlock(bs, defs, base, i) && j < |defs|
    ensures 0 < base && BLOCK_SIZE <= base + defs[j].code < 0x8000_0000
    ensures (base + defs[j].code) / BLOCK_SIZE == i && e == defs[j].code - MinCode(defs)
    ensures e < |bs[i].value.entries| && GetEntry(bs, base + defs[j].code) == Found(bs[i].value.entries[e])
  {
    hide GetEntry, MinCode, MaxCode;
    CodeRange(defs, j);
    e := defs[j].code - MinCode(defs);
    EntryAt(bs, base + defs[j].code, i, e);
  }

  lemma EntryAt(bs: Blocks, x: int, i: nat, e: nat)
    requires i < |bs| <= EXCEPTION_BLOCKS && bs[i].Some? && e < |bs[i].value.entries|
    requires e < BLOCK_SIZE && x == i * BLOCK_SIZE + e
    ensures GetEntry(bs, x) == Found(bs[i].value.entries[e]) && x / BLOCK_SIZE == i
  {
  }

  lemma {:induction false} CompareSame(xb: Block, defs: seq<Def>, j: nat, k: nat)
    requires j <= k < |defs| && Compare(xb, defs, j).Same?
    ensures k < |xb.entries| && xb.entries[k].name == defs[k].name
    decreases k
  {
    if j < k { CompareSameStep(xb, defs, j, k); }
  }

  lemma {:induction false} CompareSameStep(xb: Block, defs: seq<Def>, j: nat, k: nat)
    requires j <= k <= |defs| && Compare(xb, defs, j).Same?
    ensures Compare(xb, defs, k).Same?
    decreases k - j
  {
    if j < k { CompareSameStep(xb, defs, j + 1, k); }
  }

  /** The entry of a code has the name that the definitions of that code agree on. */
  lemma {:induction false} FilledName(defs: seq<Def>, n: nat, min: int, size: nat, j: nat)
    requires n <= |defs| && Good(defs) && j < n && 0 <= defs[j].code - min < size
    requires forall k :: 0 <= k < |defs| && defs[k].code == defs[j].code ==> defs[k].name == defs[j].name
    ensures Filled(defs, n, min, size)[defs[j].code - min].name == defs[j].name
  {
    if j < n - 1 { FilledName(defs, n - 1, min, size, j); }
  }

  lemma SameCodeSameName(defs: seq<Def>, j: nat)
    requires Positional(defs) && j < |defs|
    ensures forall k :: 0 <= k < |defs| && defs[k].code == defs[j].code ==> defs[k].name == defs[j].name
  {
    hide MinCode;
    assert InPlace(defs, j);
    forall k | 0 <= k < |defs| && defs[k].code == defs[j].code ensures defs[k].name == defs[j].name {
      assert InPlace(defs, k);
    }
  }

  /** Looking for the name of a code by its position in the list finds it. */
  ghost predicate Positional(defs: seq<Def>) {
    defs != [] && forall j :: 0 <= j < |defs| ==> InPlace(defs, j)
  }

  predicate InPlace(defs: seq<Def>, j: nat)
    requires j < |defs|
  {
    var p := defs[j].code - MinCode(defs);
    0 <= p < |defs| && defs[p].name == defs[j].name
  }

  /** What lists of exceptions look like in practice. */
  ghost predicate Ascending(defs: seq<Def>) {
    defs != [] && forall j :: 0 <= j < |defs| ==> defs[j].code == defs[0].code + j
  }

  lemma AscendingPositional(defs: seq<Def>)
    requires Ascending(defs)
    ensures MinCode(defs) == defs[0].code && MaxCode(defs) == defs[0].code + |defs| - 1
    ensures Positional(defs)
  {
    CodeRange(defs, 0);
    CodeRange(defs, |defs| - 1);
  }

  /** After all later registrations, each code that was handed out has its name. */
  ghost predicate RoundTrips(bs: Blocks, defs: seq<Def>, base: int) {
    forall j :: 0 <= j < |defs| ==>
      defs[j].name.Some? && Name(bs, base + defs[j].code) == defs[j].name.value
  }

  /** The entry that a new or an old block has for definition `j`. */
  lemma EntryName(bs: Blocks, all: seq<Def>, i: nat, j: nat)
    requires Register(bs, all).1.Base? && Good(Listed(all)) && Positional(Listed(all)) && j < |Listed(all)|
    requires InBlock(Register(bs, all).0, Listed(all), Register(bs, all).1.base, i)
    requires var defs := Listed(all);
      (Register(bs, all).0 == bs && Compare(bs[i].value, defs, 0).Same?)
      || (MinCode(defs) <= MaxCode(defs) && Register(bs, all).0[i].value.entries
          == Filled(defs, |defs|, MinCode(defs), MaxCode(defs) - MinCode(defs) + 1))
    ensures var e := Listed(all)[j].code - MinCode(Listed(all));
      0 <= e < |Register(bs, all).0[i].value.entries|
      && Register(bs, all).0[i].value.entries[e].name == Listed(all)[j].name
  {
    hide Register, Filled, Compare, MinCode, MaxCode, Listed;
    var defs := Listed(all);
    CodeRange(defs, j);
    assert InPlace(defs, j);
    if Register(bs, all).0 == bs && Compare(bs[i].value, defs, 0).Same? {
      CompareSame(bs[i].value, defs, 0, defs[j].code - MinCode(defs));
    } else {
      SameCodeSameName(defs, j);
      FilledName(defs, |defs|, MinCode(defs), MaxCode(defs) - MinCode(defs) + 1, j);
    }
  }

  lemma NamesKept(bs: Blocks, all: seq<Def>, lists: seq<seq<Def>>)
    requires Valid(bs) && Register(bs, all).1.Base? && Positional(Listed(all))
    ensures RoundTrips(RegisterAll(Register(bs, all).0, lists), Listed(all), Register(bs, all).1.base)
  {
    hide Register, Filled, Compare, MinCode, MaxCode, Listed, Positional, RegisterAll, GetEntry;
    var defs, base := Listed(all), Register(bs, all).1.base;
    var bs1 := Register(bs, all).0;
    RegisterValid(bs, all);
    var i := RegisteredBlock(bs, all);
    RegisterAllValid(bs1, lists);
    var bs2 := RegisterAll(bs1, lists);
    forall j | 0 <= j < |defs| ensures Name(bs2, base + defs[j].code) == defs[j].name.value {
      var e := CodeEntry(bs2, defs, base, i, j);
      EntryName(bs, all, i, j);
    }
  }

  /** Codes from different registrations are the same only if the offsets and the codes of the
      modules are the same. */
  lemma NoCollisions(bs: Blocks, l1: seq<Def>, between: seq<seq<Def>>, l2: seq<Def>, j: nat, k: nat)
    requires Valid(bs) && Register(bs, l1).1.Base?
    requires Register(RegisterAll(Register(bs, l1).0, between), l2).1.Base?
    requires j < |Listed(l1)| && k < |Listed(l2)|
    ensures var base1 := Register(bs, l1).1.base;
      var base2 := Register(RegisterAll(Register(bs, l1).0, between), l2).1.base;
      var c1, c2 := Listed(l1)[j].code, Listed(l2)[k].code;
      base1 + c1 == base2 + c2 <==> base1 == base2 && c1 == c2
  {
    hide Register, RegisterAll, Listed, MinCode, MaxCode;
    RegisterValid(bs, l1);
    var i1 := RegisteredBlock(bs, l1);
    var bs1 := Register(bs, l1).0;
    RegisterAllValid(bs1, between);
    var bs2 := RegisterAll(bs1, between);
    RegisterValid(bs2, l2);
    var i2 := RegisteredBlock(bs2, l2);
    var bs3 := Register(bs2, l2).0;
    var e1 := CodeEntry(bs3, Listed(l1), Register(bs, l1).1.base, i1, j);
    var e2 := CodeEntry(bs3, Listed(l2), Register(bs2, l2).1.base, i2, k);
  }

  lemma {:induction false} CompareAll(xb: Block, defs: seq<Def>, j: nat)
    requires j <= |defs| <= |xb.entries| && Good(defs)
    requires forall k :: 0 <= k < |defs| ==> xb.entries[k].name == defs[k].name
    ensures Compare(xb, defs, j).Same?
    decreases |defs| - j
  {
    if j < |defs| { CompareAll(xb, defs, j + 1); }
  }

  lemma {:induction false} SearchAgain(bs: Blocks, later: Blocks, defs: seq<Def>, min: int, max: int, i: nat, k: nat)
    requires Extends(later, bs) && i <= k < |bs| && forall h :: i <= h < k ==> bs[h].Some?
    requires later[k].Some? && Fits(later[k].value, k, min, max) && Compare(later[k].value, defs, 0).Same?
    requires AlreadyRegistered(bs, defs, min, max, i).NoMatch? || AlreadyRegistered(bs, defs, min, max, i) == Matched(k)
    ensures AlreadyRegistered(later, defs, min, max, i) == Matched(k)
    decreases k - i
  {
    if i < k { SearchAgain(bs, later, defs, min, max, i + 1, k); }
  }

  /** Registering a gap-free, ascending list again, after whatever else, gives the same offset. */
  lemma SameOffsetAgain(bs: Blocks, all: seq<Def>, between: seq<seq<Def>>)
    requires Valid(bs) && Ascending(Listed(all)) && Register(bs, all).1.Base?
    ensures var bs2 := RegisterAll(Register(bs, all).0, between);
      Register(bs2, all) == (bs2, Register(bs, all).1)
  {
    hide Filled, Compare, MinCode, MaxCode, Listed, RegisterAll;
    var defs := Listed(all);
    RegisterValid(bs, all);
    var bs1 := Register(bs, all).0;
    RegisterAllValid(bs1, between);
    var bs2 := RegisterAll(bs1, between);
    ListedGood(all);
    AscendingPositional(defs);
    var min, max := MinCode(defs), MaxCode(defs);
    var found := AlreadyRegistered(bs, defs, min, max, 1);
    var k := if found.Matched? then found.i else FirstFree(bs, 1);
    if found.NoMatch? {
      forall j | 0 <= j < |defs| ensures bs1[k].value.entries[j].name == defs[j].name {
        FilledName(defs, |defs|, min, max - min + 1, j);
      }
      CompareAll(bs1[k].value, defs, 0);
    }
    SearchAgain(bs, bs2, defs, min, max, 1, k);
  }

  // ---------------------------------------------------------------------------------------
  // Comparisons that go wrong
  // ---------------------------------------------------------------------------------------

  /** The number of entries in a block for `defs`. */
  function Range(defs: seq<Def>): int
    requires defs != []
  {
    MaxCode(defs) - MinCode(defs) + 1
  }

  /** Each code from the least to the greatest one is defined. */
  ghost predicate GapFree(defs: seq<Def>)
    requires defs != []
  {
    forall c :: MinCode(defs) <= c <= MaxCode(defs) ==> Defines(defs, c)
  }

  ghost predicate Defines(defs: seq<Def>, c: int) {
    exists j :: 0 <= j < |defs| && defs[j].code == c
  }

  ghost predicate AllGapFree(lists: seq<seq<Def>>) {
    forall i :: 0 <= i < |lists| && Listed(lists[i]) != [] ==> GapFree(Listed(lists[i]))
  }

  /** The first and the last entry of each block have names. */
  ghost predicate EndsNamed(bs: Blocks) {
    forall i :: 1 <= i < |bs| && bs[i].Some? && |bs[i].value.entries| > 0 ==>
      bs[i].value.entries[0].name.Some? && bs[i].value.entries[|bs[i].value.entries| - 1].name.Some?
  }

  ghost predicate AllNamed(bs: Blocks) {
    forall i, e :: 1 <= i < |bs| && bs[i].Some? && 0 <= e < |bs[i].value.entries| ==> bs[i].value.entries[e].name.Some?
  }

  lemma {:induction false} FilledSome(defs: seq<Def>, n: nat, min: int, size: nat, j: nat)
    requires n <= |defs| && Good(defs) && j < n && 0 <= defs[j].code - min < size
    ensures Filled(defs, n, min, size)[defs[j].code - min].name.Some?
  {
    if j < n - 1 { FilledSome(defs, n - 1, min, size, j); }
  }

  /** Which entries of a new block have names. */
  lemma FilledNamed(defs: seq<Def>, size: nat)
    requires Good(defs) && defs != [] && size == Range(defs)
    ensures size > 0
    ensures var es := Filled(defs, |defs|, MinCode(defs), size);
      && es[0].name.Some? && es[size - 1].name.Some?
      && (GapFree(defs) ==> forall e :: 0 <= e < size ==> es[e].name.Some?)
  {
    hide Filled, MinCode, MaxCode;
    CodeRange(defs, 0);
    var a :| 0 <= a < |defs| && defs[a].code == MinCode(defs);
    var b :| 0 <= b < |defs| && defs[b].code == MaxCode(defs);
    FilledSome(defs, |defs|, MinCode(defs), size, a);
    FilledSome(defs, |defs|, MinCode(defs), size, b);
    if GapFree(defs) {
      forall e | 0 <= e < size ensures Filled(defs, |defs|, MinCode(defs), size)[e].name.Some? {
        assert Defines(defs, MinCode(defs) + e);
        var j :| 0 <= j < |defs| && defs[j].code == MinCode(defs) + e;
        FilledSome(defs, |defs|, MinCode(defs), size, j);
      }
    }
  }

  lemma RegisterNames(bs: Blocks, all: seq<Def>)
    requires EndsNamed(bs)
    ensures EndsNamed(Register(bs, all).0)
    ensures AllNamed(bs) && (Listed(all) != [] ==> GapFree(Listed(all))) ==> AllNamed(Register(bs, all).0)
  {
    hide Filled, MinCode, MaxCode, Listed, Verdict, AlreadyRegistered, GapFree;
    var defs := Listed(all);
    if Verdict(all) == 0 && defs != [] {
      ListedGood(all);
      CodeRange(defs, 0);
      FilledNamed(defs, Range(defs));
    }
  }

  lemma {:induction false} RegisterAllNames(bs: Blocks, lists: seq<seq<Def>>)
    requires EndsNamed(bs)
    ensures EndsNamed(RegisterAll(bs, lists))
    ensures AllNamed(bs) && AllGapFree(lists) ==> AllNamed(RegisterAll(bs, lists))
    decreases |lists|
  {
    hide Register, EndsNamed, AllNamed, Listed, GapFree;
    if lists != [] {
      RegisterNames(bs, lists[0]);
      RegisterAllNames(Register(bs, lists[0]).0, lists[1..]);
      assert AllGapFree(lists) ==> AllGapFree(lists[1..]) by {
        forall i | 0 <= i < |lists| - 1 ensures lists[1..][i] == lists[i + 1] {}
      }
    }
  }

  /** A comparison that finds a name wherever it looks does not fault. */
  lemma {:induction false} CompareGoes(xb: Block, defs: seq<Def>, j: nat)
    requires j <= |defs| <= |xb.entries| && Good(defs)
    requires forall k :: 0 <= k < |defs| ==> xb.entries[k].name.Some?
    ensures !Compare(xb, defs, j).Faults?
    decreases |defs| - j
  {
    if j < |defs| { CompareGoes(xb, defs, j + 1); }
  }

  lemma {:induction false} SearchGoes(bs: Blocks, defs: seq<Def>, min: int, max: int, i: nat)
    requires 1 <= i && Good(defs) && |defs| <= max - min + 1 && EndsNamed(bs)
    requires AllNamed(bs) || |defs| <= 1 || max - min + 1 <= 2
    ensures !AlreadyRegistered(bs, defs, min, max, i).MatchFaults?
    decreases |bs| - i
  {
    hide Compare;
    if i < |bs| {
      if bs[i].Some? && Fits(bs[i].value, i, min, max) { CompareGoes(bs[i].value, defs, 0); }
      SearchGoes(bs, defs, min, max, i + 1);
    }
  }

  /** A short list never makes a comparison go wrong, and no list with at most one definition for
      each code does if there are no gaps in the lists that came before. */
  lemma NeverFaults(core: seq<Entry>, before: seq<seq<Def>>, all: seq<Def>)
    requires Listed(all) != [] ==> |Listed(all)| <= Range(Listed(all))
    requires AllGapFree(before) || |Listed(all)| <= 1 || Range(Listed(all)) <= 2
    ensures !Register(RegisterAll(OpenRegistry(core), before), all).1.Undefined?
  {
    hide RegisterAll, Listed, MinCode, MaxCode, AlreadyRegistered, Verdict, AllGapFree, EndsNamed, AllNamed;
    var bs, defs := RegisterAll(OpenRegistry(core), before), Listed(all);
    assert EndsNamed(OpenRegistry(core)) && AllNamed(OpenRegistry(core)) by { NothingNamed(core); }
    RegisterAllNames(OpenRegistry(core), before);
    if Verdict(all) == 0 && defs != [] {
      ListedGood(all);
      SearchGoes(bs, defs, MinCode(defs), MaxCode(defs), 1);
    }
  }

  lemma NothingNamed(core: seq<Entry>)
    ensures EndsNamed(OpenRegistry(core)) && AllNamed(OpenRegistry(core))
  {
  }

  // The other way around: lists that do make it go wrong.

  /** A list of two codes, with all those between them missing. */
  function Gapped(defs: seq<Def>): (r: seq<Def>)
    requires defs != [] && defs[0].name.Some?
  {
    [Def(MinCode(defs), defs[0].name, None), Def(MaxCode(defs), defs[0].name, None)]
  }

  /** It may meet an entry without a name. */
  lemma GapFaults(core: seq<Entry>, defs: seq<Def>)
    requires Good(defs) && 2 <= |defs| <= Range(defs) && Range(defs) > 2
    ensures Register(RegisterAll(OpenRegistry(core), [Gapped(defs)]), defs).1 == Undefined
  {
    hide RegisterAll, Listed, MinCode, MaxCode, Verdict;
    var two := Gapped(defs);
    CodeRange(defs, 0);
    TwoCodes(two);
    AllListed(two);
    AllListed(defs);
    FirstRegistered(core, two);
    OneMore(OpenRegistry(core), two);
    GappedEntries(two, Range(defs));
    assert Compare(NewBlock(two), defs, 1).Faults? && Compare(NewBlock(two), defs, 0).Faults?;
  }

  lemma TwoCodes(two: seq<Def>)
    requires |two| == 2 && two[0].code < two[1].code
    ensures MinCode(two) == two[0].code && MaxCode(two) == two[1].code
  {
    CodeRange(two, 0);
    CodeRange(two, 1);
  }

  lemma GappedEntries(two: seq<Def>, size: nat)
    requires |two| == 2 && Good(two) && size > 2 && two[1].code == two[0].code + size - 1
    ensures MinCode(two) == two[0].code && MaxCode(two) == two[1].code && |NewBlock(two).entries| == size
    ensures NewBlock(two).entries[0].name == two[0].name && NewBlock(two).entries[1].name == None
    ensures NewBlock(two).base == BLOCK_SIZE - two[0].code
  {
    hide MinCode, MaxCode;
    TwoCodes(two);
    assert Filled(two, 1, two[0].code, size)[1] == BLANK;
    assert Filled(two, 2, two[0].code, size)[1] == BLANK;
  }

  /** It may run past the end of a block. */
  lemma OverrunFaults(core: seq<Entry>, defs: seq<Def>)
    requires Good(defs) && defs != [] && |defs| > Range(defs)
    ensures AllGapFree([Shadow(defs, "")])
    ensures Register(RegisterAll(OpenRegistry(core), [Shadow(defs, "")]), defs).1 == Undefined
  {
    hide RegisterAll, Listed, MinCode, MaxCode, Verdict, NewBlock, Shadow, Compare;
    var sh := Shadow(defs, "");
    CodeRange(defs, 0);
    ShadowIs(defs, "");
    AllListed(sh);
    AllListed(defs);
    AscendingGapFree(sh);
    FirstRegistered(core, sh);
    OneMore(OpenRegistry(core), sh);
    ShadowFits(defs, "");
    ShadowOverrun(defs, 0);
  }

  lemma ShadowFits(defs: seq<Def>, other: string)
    requires Good(defs) && defs != []
    ensures |NewBlock(Shadow(defs, other)).entries| == Range(defs)
    ensures Fits(NewBlock(Shadow(defs, other)), 1, MinCode(defs), MaxCode(defs))
  {
    hide Filled, MinCode, MaxCode;
    CodeRange(defs, 0);
    ShadowIs(defs, other);
  }

  lemma {:induction false} ShadowOverrun(defs: seq<Def>, j: nat)
    requires Good(defs) && defs != [] && j <= Range(defs) < |defs|
    ensures Compare(NewBlock(Shadow(defs, "")), defs, j).Faults?
    decreases |defs| - j
  {
    hide Filled, MinCode, MaxCode;
    ShadowIs(defs, "");
    ShadowFits(defs, "");
    if j < Range(defs) {
      ShadowEntry(defs, "", j);
      ShadowOverrun(defs, j + 1);
    }
  }

  lemma AscendingGapFree(defs: seq<Def>)
    requires Ascending(defs)
    ensures GapFree(defs) && Range(defs) == |defs|
  {
    hide MinCode, MaxCode;
    AscendingPositional(defs);
    forall c | MinCode(defs) <= c <= MaxCode(defs) ensures Defines(defs, c) {
      assert defs[c - defs[0].code].code == c;
    }
  }

  /** Registering a list makes no comparison go wrong, whatever was registered before, if and only
      if it has no more definitions than codes, and has one definition or at most two codes. */
  lemma NeverUndefinedIff(core: seq<Entry>, defs: seq<Def>)
    requires Good(defs) && defs != []
    ensures (forall before: seq<seq<Def>> :: NoFault(core, before, defs)) <==>
            |defs| <= Range(defs) && (|defs| <= 1 || Range(defs) <= 2)
  {
    hide Register, RegisterAll, MinCode, MaxCode, Listed, Gapped, Shadow;
    AllListed(defs);
    if |defs| > Range(defs) {
      OverrunFaults(core, defs);
      assert !NoFault(core, [Shadow(defs, "")], defs);
    } else if |defs| > 1 && Range(defs) > 2 {
      GapFaults(core, defs);
      assert !NoFault(core, [Gapped(defs)], defs);
    } else {
      forall before: seq<seq<Def>> ensures NoFault(core, before, defs) { NeverFaults(core, before, defs); }
    }
  }

  /** Registering `defs` after the lists `before` compares nothing that is not there. */
  ghost predicate NoFault(core: seq<Entry>, before: seq<seq<Def>>, defs: seq<Def>) {
    Register(RegisterAll(OpenRegistry(core), before), defs).1 != Undefined
  }

  /** For example: a module has codes 1 and 3, and another one has 1, 2 and 3. */
  lemma NullNameCompared(core: seq<Entry>)
    ensures var a, b, c := Def(1, Some("a"), None), Def(2, Some("b"), None), Def(3, Some("c"), None);
      && Ascending([a, b, c]) && Good([a, b, c])
      && Register(RegisterAll(OpenRegistry(core), [[a, c]]), [a, b, c]).1 == Undefined
  {
    hide RegisterAll, Listed, MinCode, MaxCode, Verdict;
    var a, b, c := Def(1, Some("a"), None), Def(2, Some("b"), None), Def(3, Some("c"), None);
    var two, three := [a, c], [a, b, c];
    assert Ascending(three) && Good(three) && Good(two);
    TwoCodes(two);
    AscendingPositional(three);
    AllListed(two);
    AllListed(three);
    FirstRegistered(core, two);
    OneMore(OpenRegistry(core), two);
    GappedEntries(two, 3);
    assert Compare(NewBlock(two), three, 1).Faults? && Compare(NewBlock(two), three, 0).Faults?;
  }

  /** Registering a gap-free, ascending list gives codes that are positive, that fit in 31 bits,
      that are no codes of the VM itself, and that lead back to their names for good. If there are
      gaps in lists that came before, the registration may go wrong instead; if it fails, there
      was no room, or the list is bad. */
  lemma AscendingNamesKept(core: seq<Entry>, before: seq<seq<Def>>, all: seq<Def>, after: seq<seq<Def>>)
    requires Ascending(Listed(all))
    ensures var bs := RegisterAll(OpenRegistry(core), before); var r := Register(bs, all).1;
      && (AllGapFree(before) || |Listed(all)| <= 2 ==> r != Undefined)
      && (r.Failed? ==> r.x == -XNOFREEBLOCKS || r.x == -Verdict(all))
      && (r.Base? ==>
            && r.base > 0
            && RoundTrips(RegisterAll(Register(bs, all).0, after), Listed(all), r.base)
            && forall j :: 0 <= j < |Listed(all)| ==> BLOCK_SIZE <= r.base + Listed(all)[j].code < 0x8000_0000)
  {
    hide Register, RegisterAll, Listed, MinCode, MaxCode, RoundTrips, AllGapFree, Verdict;
    RegisterAllValid(OpenRegistry(core), before);
    var bs := RegisterAll(OpenRegistry(core), before);
    AscendingGapFree(Listed(all));
    if AllGapFree(before) || |Listed(all)| <= 2 { NeverFaults(core, before, all); }
    if Register(bs, all).1.Failed? { WhyFailed(bs, all); }
    if Register(bs, all).1.Base? {
      AscendingPositional(Listed(all));
      NamesKept(bs, all, after);
      RegisterValid(bs, all);
      var i := RegisteredBlock(bs, all);
      forall j | 0 <= j < |Listed(all)|
        ensures BLOCK_SIZE <= Register(bs, all).1.base + Listed(all)[j].code < 0x8000_0000
      {
        var e := CodeEntry(Register(bs, all).0, Listed(all), Register(bs, all).1.base, i, j);
      }
      var e := CodeEntry(Register(bs, all).0, Listed(all), Register(bs, all).1.base, i, 0);
    }
  }

  lemma WhyFailed(bs: Blocks, all: seq<Def>)
    requires Listed(all) != [] && Register(bs, all).1.Failed?
    ensures Register(bs, all).1.x in {-XNOFREEBLOCKS, -Verdict(all)}
  {
    hide Filled, MinCode, MaxCode, Listed, Verdict, AlreadyRegistered;
    if Verdict(all) == 0 {
      ListedGood(all);
      CodeRange(Listed(all), 0);
    }
  }

  // ---------------------------------------------------------------------------------------
  // Lists that are not in order
  // ---------------------------------------------------------------------------------------

  function Shadow(defs: seq<Def>, other: string): (r: seq<Def>)
    requires defs != []
  {
    var min := MinCode(defs);
    seq(if MaxCode(defs) >= min then MaxCode(defs) - min + 1 else 0,
        k requires k >= 0 => Def(min + k,
          Some(if k < |defs| && defs[k].name.Some? then defs[k].name.value else other), None))
  }

  lemma {:induction false} AllListed(defs: seq<Def>)
    requires Good(defs)
    ensures Listed(defs) == defs && Verdict(defs) == 0
    decreases |defs|
  {
    if defs != [] { AllListed(defs[1..]); }
  }

  lemma ShadowIs(defs: seq<Def>, other: string)
    requires Good(defs) && defs != []
    ensures Ascending(Shadow(defs, other)) && Good(Shadow(defs, other))
    ensures MinCode(Shadow(defs, other)) == MinCode(defs) && MaxCode(Shadow(defs, other)) == MaxCode(defs)
  {
    hide MinCode, MaxCode;
    CodeRange(defs, 0);
    AscendingPositional(Shadow(defs, other));
  }

  lemma FirstRegistered(core: seq<Entry>, defs: seq<Def>)
    requires Good(defs) && defs != [] && Listed(defs) == defs && Verdict(defs) == 0
    ensures MinCode(defs) <= MaxCode(defs)
    ensures Register(OpenRegistry(core), defs)
            == (OpenRegistry(core)[1 := Some(NewBlock(defs))], Base(BLOCK_SIZE - MinCode(defs)))
  {
    hide Filled, Compare, MinCode, MaxCode, Listed, Verdict;
    CodeRange(defs, 0);
    NothingRegistered(OpenRegistry(core), defs, MinCode(defs), MaxCode(defs), 1);
    assert FirstFree(OpenRegistry(core), 1) == 1;
  }

  function NewBlock(defs: seq<Def>): Block
    requires defs != []
  {
    var min, max := MinCode(defs), MaxCode(defs);
    Block(BLOCK_SIZE - min, Filled(defs, |defs|, min, if max >= min then max - min + 1 else 0))
  }

  /** A module that registers the same names in another order first. */
  lemma ShadowRegistered(core: seq<Entry>, defs: seq<Def>, other: string) returns (bs: Blocks)
    requires Good(defs) && defs != [] && |defs| <= MaxCode(defs) - MinCode(defs) + 1
    ensures bs == RegisterAll(OpenRegistry(core), [Shadow(defs, other)])
    ensures Register(bs, defs) == (bs, Base(BLOCK_SIZE - MinCode(defs)))
    ensures bs == OpenRegistry(core)[1 := Some(NewBlock(Shadow(defs, other)))]
  {
    hide Filled, Compare, MinCode, MaxCode, Listed, NewBlock, Shadow, RegisterAll;
    var sh := Shadow(defs, other);
    ShadowIs(defs, other);
    AllListed(sh);
    AllListed(defs);
    FirstRegistered(core, sh);
    FirstRegistered(core, defs);
    OneMore(OpenRegistry(core), sh);
    bs := RegisterAll(OpenRegistry(core), [sh]);
    ShadowCompares(defs, other, 0);
  }

  lemma {:induction false} ShadowCompares(defs: seq<Def>, other: string, j: nat)
    requires Good(defs) && defs != [] && j <= |defs| <= MaxCode(defs) - MinCode(defs) + 1
    ensures Compare(NewBlock(Shadow(defs, other)), defs, j).Same?
    ensures Fits(NewBlock(Shadow(defs, other)), 1, MinCode(defs), MaxCode(defs))
    decreases |defs| - j
  {
    hide Filled, MinCode, MaxCode;
    ShadowIs(defs, other);
    if j < |defs| {
      ShadowEntry(defs, other, j);
      ShadowCompares(defs, other, j + 1);
    }
  }

  lemma ShadowEntry(defs: seq<Def>, other: string, k: nat)
    requires Good(defs) && defs != [] && k < |Shadow(defs, other)|
    ensures |NewBlock(Shadow(defs, other)).entries| == |Shadow(defs, other)|
    ensures NewBlock(Shadow(defs, other)).entries[k].name == Shadow(defs, other)[k].name
  {
    hide Filled, MinCode, MaxCode;
    var sh := Shadow(defs, other);
    ShadowIs(defs, other);
    AscendingPositional(sh);
    FilledName(sh, |sh|, MinCode(sh), MaxCode(sh) - MinCode(sh) + 1, k);
  }

  lemma {:induction false} NothingRegistered(bs: Blocks, defs: seq<Def>, min: int, max: int, i: nat)
    requires forall k :: i <= k < |bs| ==> bs[k].None?
    ensures AlreadyRegistered(bs, defs, min, max, i).NoMatch?
    decreases |bs| - i
  {
    if i < |bs| { NothingRegistered(bs, defs, min, max, i + 1); }
  }

  lemma WrongNames(core: seq<Entry>, defs: seq<Def>, j: nat)
    requires j < |defs| && Good(defs) && |defs| <= Range(defs) && !InPlace(defs, j)
    ensures var before := [Shadow(defs, defs[j].name.value + "'")];
      AllGapFree(before) && !NamedAfter(core, before, defs)
  {
    hide Register, MinCode, MaxCode, RegisterAll, GetEntry, NewBlock, Listed;
    var other := defs[j].name.value + "'";
    ShadowIs(defs, other);
    CodeRange(defs, j);
    var bs := ShadowRegistered(core, defs, other);
    var p, sh := defs[j].code - MinCode(defs), Shadow(defs, other);
    AllListed(sh);
    AscendingGapFree(sh);
    ShadowEntry(defs, other, p);
    EntryAt(bs, BLOCK_SIZE + p, 1, p);
  }

  lemma RightNames(core: seq<Entry>, before: seq<seq<Def>>, defs: seq<Def>)
    requires Good(defs) && Positional(defs) && NoFault(core, before, defs)
    ensures NamedAfter(core, before, defs)
  {
    hide Register, MinCode, MaxCode, RegisterAll, Listed;
    AllListed(defs);
    RegisterAllValid(OpenRegistry(core), before);
    var bs := RegisterAll(OpenRegistry(core), before);
    if Register(bs, defs).1.Base? {
      NamesKept(bs, defs, []);
      NoMore(Register(bs, defs).0);
    }
  }

  /** Because names are compared by position, a list can be taken for one that a module has
      registered with the same names in another order, and its codes then have wrong names. After
      lists without gaps, that and comparing what is not there are ruled out if and only if the list
      has no more definitions than codes, and in the list itself each name is found at the position
      that its code calls for. */
  lemma RightNamesIffPositional(core: seq<Entry>, defs: seq<Def>)
    requires Good(defs) && defs != []
    ensures (forall before: seq<seq<Def>> :: AllGapFree(before) ==> NamedAfter(core, before, defs)) <==>
            Positional(defs) && |defs| <= Range(defs)
  {
    hide MinCode, MaxCode, NamedAfter, InPlace, AllGapFree, NoFault;
    if |defs| > Range(defs) {
      FaultNotNamed(core, defs);
    } else if Positional(defs) {
      forall before: seq<seq<Def>> | AllGapFree(before) ensures NamedAfter(core, before, defs) {
        NoFaultAfter(core, before, defs);
        RightNames(core, before, defs);
      }
    } else {
      var j :| 0 <= j < |defs| && !InPlace(defs, j);
      WrongNames(core, defs, j);
    }
  }

  /** After lists of any kind, it takes a list that is short as well. */
  lemma RightNamesIffShort(core: seq<Entry>, defs: seq<Def>)
    requires Good(defs) && defs != []
    ensures (forall before: seq<seq<Def>> :: NamedAfter(core, before, defs)) <==>
            Positional(defs) && |defs| <= Range(defs) && (|defs| <= 1 || Range(defs) <= 2)
  {
    hide MinCode, MaxCode, NamedAfter, InPlace, AllGapFree, NoFault, Positional;
    NeverUndefinedIff(core, defs);
    RightNamesIffPositional(core, defs);
    if Positional(defs) && forall before: seq<seq<Def>> :: NoFault(core, before, defs) {
      forall before: seq<seq<Def>> ensures NamedAfter(core, before, defs) { RightNames(core, before, defs); }
    } else if Positional(defs) {
      var before :| !NoFault(core, before, defs);
      assert !NamedAfter(core, before, defs) by { FaultedNotNamed(core, before, defs); }
    }
  }

  lemma FaultedNotNamed(core: seq<Entry>, before: seq<seq<Def>>, defs: seq<Def>)
    requires !NoFault(core, before, defs)
    ensures !NamedAfter(core, before, defs)
  {
  }

  lemma FaultNotNamed(core: seq<Entry>, defs: seq<Def>)
    requires Good(defs) && defs != [] && |defs| > Range(defs)
    ensures AllGapFree([Shadow(defs, "")]) && !NamedAfter(core, [Shadow(defs, "")], defs)
  {
    hide Register, RegisterAll, MinCode, MaxCode;
    OverrunFaults(core, defs);
  }

  lemma NoFaultAfter(core: seq<Entry>, before: seq<seq<Def>>, defs: seq<Def>)
    requires Good(defs) && defs != [] && |defs| <= Range(defs) && AllGapFree(before)
    ensures NoFault(core, before, defs)
  {
    hide Register, RegisterAll, MinCode, MaxCode, AllGapFree, Listed;
    AllListed(defs);
    NeverFaults(core, before, defs);
  }

  lemma NoMore(bs: Blocks)
    ensures RegisterAll(bs, []) == bs
  {
  }

  lemma OneMore(bs: Blocks, list: seq<Def>)
    ensures RegisterAll(bs, [list]) == Register(bs, list).0
  {
    hide Register;
    var lists := [list];
    assert lists[1..] == [];
    NoMore(Register(bs, list).0);
  }

  ghost predicate NamedAfter(core: seq<Entry>, before: seq<seq<Def>>, defs: seq<Def>) {
    var r := Register(RegisterAll(OpenRegistry(core), before), defs);
    r.1 != Undefined && (r.1.Base? ==> RoundTrips(r.0, defs, r.1.base))
  }

  // ---------------------------------------------------------------------------------------
  // The registry
  // ---------------------------------------------------------------------------------------

  /** The global array of blocks, and `eel_x_register` as it works on it. */
  class Registry {
    var blocks: array<Option<Block>>

    /** `eel_x_open_registry`. */
    constructor (core: seq<Entry>)
      ensures fresh(blocks) && blocks[..] == OpenRegistry(core)
    {
      blocks := new Option<Block>[EXCEPTION_BLOCKS](_ => None);
      new;
      blocks[0] := Some(Block(0, core));
    }

    /** Counts and verifies the entries. `x` is the exception for the first bad one. */
    method Check(all: seq<Def>) returns (x: int, count: nat, min: int, max: int)
      ensures x == Verdict(all)
      ensures x == 0 ==> count == |Listed(all)| <= |all| && all[..count] == Listed(all)
      ensures x == 0 && count > 0 ==> min == MinCode(Listed(all)) && max == MaxCode(Listed(all))
    {
      hide Verdict, Listed, MinCode, MaxCode;
      count, min, max := 0, 0x7fff_ffff, -0x8000_0000;
      while count < |all| && !Terminator(all[count])
        invariant count <= |all| && Good(all[..count])
        invariant Verdict(all) == Verdict(all[count..]) && Listed(all) == all[..count] + Listed(all[count..])
        invariant count == 0 ==> min == 0x7fff_ffff && max == -0x8000_0000
        invariant count > 0 ==> min == MinCode(all[..count]) && max == MaxCode(all[..count])
      {
        var xd := all[count];
        ScanStep(all, count);
        if xd.name.None? {
          return XBADXCODE, count, min, max;
        }
        if xd.code <= 0 || xd.code > EXCEPTION_MAX {
          return XNEEDNAME, count, min, max;
        }
        if xd.code < min {
          min := xd.code;
        }
        if xd.code > max {
          max := xd.code;
        }
        count := count + 1;
      }
      x := 0;
      ScanEnd(all, count);
    }

    /** The comparison of names in `already_registered`. */
    method CompareNames(xb: Block, defs: seq<Def>) returns (c: Comparison)
      ensures c == Compare(xb, defs, 0)
    {
      var j := 0;
      while j < |defs|
        invariant j <= |defs| && Compare(xb, defs, 0) == Compare(xb, defs, j)
      {
        if j >= |xb.entries| || xb.entries[j].name.None? || defs[j].name.None? {
          return Faults;
        }
        if xb.entries[j].name != defs[j].name {
          return Differs;
        }
        j := j + 1;
      }
      c := Same;
    }

    /** `already_registered`. */
    method FindBlock(defs: seq<Def>, min: int, max: int) returns (m: Match)
      ensures m == AlreadyRegistered(blocks[..], defs, min, max, 1)
    {
      var i := 1;
      while i < blocks.Length
        invariant 1 <= i
        invariant AlreadyRegistered(blocks[..], defs, min, max, 1) == AlreadyRegistered(blocks[..], defs, min, max, i)
        decreases blocks.Length - i
      {
        if blocks[i].Some? && |blocks[i].value.entries| == max - min + 1
           && blocks[i].value.base == i * BLOCK_SIZE - min
        {
          var c := CompareNames(blocks[i].value, defs);
          if c.Faults? {
            return MatchFaults;
          }
          if c.Same? {
            return Matched(i);
          }
        }
        i := i + 1;
      }
      m := NoMatch;
    }

    /** The entries of a new block. */
    method Fill(defs: seq<Def>, min: int, size: nat) returns (entries: seq<Entry>)
      requires forall i :: 0 <= i < |defs| ==> 0 <= defs[i].code - min < size
      ensures entries == Filled(defs, |defs|, min, size)
    {
      var xe := new Entry[size](_ => BLANK);
      assert xe[..] == Filled(defs, 0, min, size);
      for i := 0 to |defs|
        invariant xe[..] == Filled(defs, i, min, size)
      {
        var ei := defs[i].code - min;
        var e := xe[ei];
        if defs[i].name.Some? {
          e := e.(name := defs[i].name);
        }
        if defs[i].description.Some? {
          e := e.(description := defs[i].description);
        }
        xe[ei] := e;
      }
      entries := xe[..];
    }

    /** `eel_x_register`. */
    method Add(all: seq<Def>) returns (r: Outcome)
      modifies blocks
      ensures (blocks[..], r) == Register(old(blocks[..]), all)
    {
      hide Verdict, Listed, MinCode, MaxCode, AlreadyRegistered, Filled, FirstFree;
      var x, count, min, max := Check(all);
      if x != 0 {
        return Failed(-x);
      }
      if count == 0 {
        return Failed(-XFEWARGS);
      }
      if max - min > EXCEPTION_MAX {
        return Failed(-XWIDEXRANGE);
      }
      var defs := all[..count];
      CodesInRange(all);
      var m := FindBlock(defs, min, max);
      match m {
        case MatchFaults => return Undefined;
        case Matched(i) => return Base(blocks[i].value.base);
        case NoMatch =>
          var entries := Fill(defs, min, max - min + 1);
          var i := FindFree();
          if i >= blocks.Length {
            return Failed(-XNOFREEBLOCKS);
          }
          blocks[i] := Some(Block(i * BLOCK_SIZE - min, entries));
          return Base(i * BLOCK_SIZE - min);
      }
    }

    /** The search for an unused block. */
    method FindFree() returns (i: nat)
      ensures i == FirstFree(blocks[..], 1)
    {
      i := 1;
      while i < blocks.Length && blocks[i].Some?
        invariant FirstFree(blocks[..], 1) == FirstFree(blocks[..], i)
        decreases blocks.Length - i
      {
        i := i + 1;
      }
    }
  }

  /** What looking at one more definition does to the result of the check. */
  lemma ScanStep(all: seq<Def>, n: nat)
    requires n < |all| && !Terminator(all[n])
    ensures all[..n] + Listed(all[n..]) == all[..n + 1] + Listed(all[n + 1..])
    ensures Verdict(all[n..]) == if all[n].name.None? then XBADXCODE
                                 else if all[n].code <= 0 || all[n].code > EXCEPTION_MAX then XNEEDNAME
                                 else Verdict(all[n + 1..])
    ensures MinCode(all[..n + 1]) == if n > 0
            && MinCode(all[..n]) <= all[n].code then MinCode(all[..n]) else all[n].code
    ensures MaxCode(all[..n + 1]) == if n > 0
            && MaxCode(all[..n]) >= all[n].code then MaxCode(all[..n]) else all[n].code
  {
    assert all[n..][1..] == all[n + 1..];
    assert all[..n + 1][..n] == all[..n];
  }

  lemma ScanEnd(all: seq<Def>, n: nat)
    requires n <= |all| && (n < |all| ==> Terminator(all[n]))
    ensures Verdict(all[n..]) == 0 && Listed(all[n..]) == [] && all[..n] + [] == all[..n]
  {
  }

  lemma CodesInRange(all: seq<Def>)
    requires Verdict(all) == 0 && Listed(all) != []
    ensures MinCode(Listed(all)) <= MaxCode(Listed(all))
    ensures forall i :: 0 <= i < |Listed(all)| ==>
              MinCode(Listed(all)) <= Listed(all)[i].code <= MaxCode(Listed(all))
  {
    hide MinCode, MaxCode, Listed;
    forall i | 0 <= i < |Listed(all)| ensures MinCode(Listed(all)) <= Listed(all)[i].code <= MaxCode(Listed(all)) {
      CodeRange(Listed(all), i);
    }
    CodeRange(Listed(all), 0);
  }
}
