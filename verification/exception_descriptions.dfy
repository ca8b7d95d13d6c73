/** What `eel_x_description` gives for a registered code (e_exceptions.c). */
module ExceptionDescriptions {
  import opened Values
  import opened ExceptionRegistry

  /** `eel_x_description`. An entry without a description is described by its name. */
  function Description(bs: Blocks, x: int): Option<string> {
    match GetEntry(bs, x)
    case Missing(message) => Some(message)
    case Found(e) => if e.description.Some? then e.description else e.name
  }

  /** All definitions of the code of definition `j` say the same. */
  ghost predicate Agreed(defs: seq<Def>, j: nat)
    requires j < |defs|
  {
    forall k :: 0 <= k < |defs| && defs[k].code == defs[j].code ==>
      defs[k].name == defs[j].name && defs[k].description == defs[j].description
  }

  lemma {:induction false} FilledBlank(defs: seq<Def>, n: nat, min: int, size: nat, e: nat)
    requires n <= |defs| && e < size && forall k :: 0 <= k < n ==> defs[k].code - min != e
    ensures Filled(defs, n, min, size)[e] == BLANK
  {
    if n > 0 { FilledBlank(defs, n - 1, min, size, e); }
  }

  lemma {:induction false} FilledEntry(defs: seq<Def>, n: nat, min: int, size: nat, j: nat)
    requires n <= |defs| && Good(defs) && j < |defs| && 0 <= defs[j].code - min < size && Agreed(defs, j)
    ensures var e := Filled(defs, n, min, size)[defs[j].code - min];
      e == BLANK || e == Entry(defs[j].name, defs[j].description)
    ensures j < n ==>
      Filled(defs, n, min, size)[defs[j].code - min] == Entry(defs[j].name, defs[j].description)
  {
    if n == 0 {
      FilledBlank(defs, n, min, size, defs[j].code - min);
    } else {
      FilledEntry(defs, n - 1, min, size, j);
    }
  }

  /** A list that gets a block of its own: whatever is registered later, each of its codes has the
      description from the list, or its name if it has none. */
  lemma DescriptionsKept(bs: Blocks, all: seq<Def>, lists: seq<seq<Def>>, j: nat)
    requires Valid(bs) && Register(bs, all).1.Base? && Register(bs, all).0 != bs
    requires j < |Listed(all)| && Agreed(Listed(all), j)
    ensures var d, base := Listed(all)[j], Register(bs, all).1.base;
      Description(RegisterAll(Register(bs, all).0, lists), base + d.code)
      == if d.description.Some? then d.description else d.name
  {
    hide Register, Filled, Compare, MinCode, MaxCode, Listed, RegisterAll, GetEntry, Agreed;
    var defs, base := Listed(all), Register(bs, all).1.base;
    var bs1 := Register(bs, all).0;
    RegisterValid(bs, all);
    var i := RegisteredBlock(bs, all);
    RegisterAllValid(bs1, lists);
    var e := CodeEntry(RegisterAll(bs1, lists), defs, base, i, j);
    CodeRange(defs, j);
    FilledEntry(defs, |defs|, MinCode(defs), MaxCode(defs) - MinCode(defs) + 1, j);
  }

  // ---------------------------------------------------------------------------------------
  // Descriptions are not compared
  // ---------------------------------------------------------------------------------------

  /** The same codes and names in the same order. */
  ghost predicate SameButDescriptions(a: seq<Def>, b: seq<Def>) {
    |a| == |b| && forall j :: 0 <= j < |a| ==> a[j].code == b[j].code && a[j].name == b[j].name
  }

  lemma {:induction false} SameCompare(xb: Block, a: seq<Def>, b: seq<Def>, j: nat)
    requires SameButDescriptions(a, b) && j <= |a|
    ensures Compare(xb, a, j) == Compare(xb, b, j)
    decreases |a| - j
  {
    if j < |a| { SameCompare(xb, a, b, j + 1); }
  }

  lemma {:induction false} SameSearch(bs: Blocks, a: seq<Def>, b: seq<Def>, min: int, max: int, i: nat)
    requires SameButDescriptions(a, b)
    ensures AlreadyRegistered(bs, a, min, max, i) == AlreadyRegistered(bs, b, min, max, i)
    decreases |bs| - i
  {
    if i < |bs| {
      SameSearch(bs, a, b, min, max, i + 1);
      if bs[i].Some? { SameCompare(bs[i].value, a, b, 0); }
    }
  }

  lemma {:induction false} SameRange(a: seq<Def>, b: seq<Def>)
    requires SameButDescriptions(a, b) && a != []
    ensures MinCode(a) == MinCode(b) && MaxCode(a) == MaxCode(b)
    decreases |a|
  {
    if |a| > 1 { SameRange(a[..|a| - 1], b[..|b| - 1]); }
  }

  /** A list that has the codes and names of one that was registered before gets its offset and changes
      nothing, so that its codes have the descriptions of the other one. */
  lemma FirstDescriptions(bs: Blocks, all: seq<Def>, between: seq<seq<Def>>, other: seq<Def>)
    requires Valid(bs) && Ascending(Listed(all)) && Register(bs, all).1.Base?
    requires Verdict(other) == 0 && SameButDescriptions(Listed(all), Listed(other))
    ensures var bs2 := RegisterAll(Register(bs, all).0, between);
      Register(bs2, other) == (bs2, Register(bs, all).1)
  {
    hide Compare, MinCode, MaxCode, Listed, RegisterAll, Install, AlreadyRegistered;
    var bs2, a, b := RegisterAll(Register(bs, all).0, between), Listed(all), Listed(other);
    SameOffsetAgain(bs, all, between);
    SameRange(a, b);
    SameSearch(bs2, a, b, MinCode(a), MaxCode(a), 1);
    Unchanged(bs2, all);
  }

  /** A registration that leaves the blocks as they are has found one. */
  lemma Unchanged(bs: Blocks, all: seq<Def>)
    requires Register(bs, all).1.Base? && Register(bs, all).0 == bs
    ensures AlreadyRegistered(bs, Listed(all), MinCode(Listed(all)), MaxCode(Listed(all)), 1).Matched?
  {
  }
}
