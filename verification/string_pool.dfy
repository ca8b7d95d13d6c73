/** Interned strings (e_string.c): one object per content, found through a table of hash buckets,
    and a cache of strings that nothing refers to, from which they can be revived. */
module StringPool {
  import opened Values
  import opened LinkedLists

  const PS_TABLESIZE: nat := 256

  /** A pooled string object. */
  datatype Str = Str(content: string, hash: nat, rc: nat)

  /** The pool as its users see it. `cache` has the strings without references, the one that
      died last first. `died` says when that was, on a `clock` that ticks with each death; the
      original keeps no such record. */
  datatype View = View(strings: map<Node, Str>, cache: seq<Node>, next: Node, died: map<Node, nat>, clock: nat)

  const EMPTY: View := View(map[], [], 0, map[], 0)

  // ---------------------------------------------------------------------------------------
  // Operations
  // ---------------------------------------------------------------------------------------

  ghost predicate Pooled(v: View, s: string) {
    exists x :: x in v.strings && v.strings[x].content == s
  }

  ghost function ObjectOf(v: View, s: string): (x: Node)
    requires Pooled(v, s)
    ensures x in v.strings && v.strings[x].content == s
  {
    var x :| x in v.strings && v.strings[x].content == s;
    x
  }

  /** One more reference; a dead string leaves the cache (`ps_resurrect`). */
  function Owned(v: View, x: Node): View
    requires x in v.strings
  {
    var ps := v.strings[x];
    v.(strings := v.strings[x := ps.(rc := ps.rc + 1)],
       cache := if ps.rc == 0 then Without(v.cache, x) else v.cache)
  }

  function Added(v: View, s: string, hash: nat): View {
    v.(strings := v.strings[v.next := Str(s, hash, 1)], next := v.next + 1)
  }

  /** `eel_ps_nnew` and `eel_ps_nnew_grab`. */
  ghost function Create(v: View, s: string, hash: string -> nat): (View, Node) {
    if Pooled(v, s) then (Owned(v, ObjectOf(v, s)), ObjectOf(v, s))
    else (Added(v, s, hash(s)), v.next)
  }

  /** One reference less. A string that dies goes into the cache; if that was too large already,
      the string at its other end is destroyed (`ps_cache`). */
  function Dropped(v: View, x: Node, max: nat): View
    requires x in v.strings && v.strings[x].rc > 0
  {
    var ps := v.strings[x];
    var v1 := v.(strings := v.strings[x := ps.(rc := ps.rc - 1)]);
    if ps.rc > 1 then v1
    else
      var v2 := v1.(cache := [x] + v.cache, died := v.died[x := v.clock], clock := v.clock + 1);
      if |v.cache| > max then Spilled(v2) else v2
  }

  function Spilled(v: View): View
    requires v.cache != []
  {
    var last := v.cache[|v.cache| - 1];
    v.(strings := v.strings - {last}, cache := v.cache[..|v.cache| - 1])
  }

  // ---------------------------------------------------------------------------------------
  // The invariant
  // ---------------------------------------------------------------------------------------

  ghost predicate Sound(v: View, hash: string -> nat, max: nat) {
    && (forall x :: x in v.strings ==> x < v.next && v.strings[x].hash == hash(v.strings[x].content))
    && OnePerContent(v) && CacheExact(v) && CacheOrdered(v) && |v.cache| <= max + 1
  }

  ghost predicate OnePerContent(v: View) {
    forall x, y :: x in v.strings && y in v.strings && v.strings[x].content == v.strings[y].content ==> x == y
  }

  /** The cache has the strings without references, each once, and nothing else. */
  ghost predicate CacheExact(v: View) {
    && Distinct(v.cache)
    && (forall x :: x in v.cache ==> x in v.strings)
    && (forall x :: x in v.strings ==> (x in v.cache <==> v.strings[x].rc == 0))
  }

  /** The further back in the cache, the longer a string has been dead. */
  ghost predicate CacheOrdered(v: View) {
    && (forall i :: 0 <= i < |v.cache| ==> v.cache[i] in v.died && v.died[v.cache[i]] < v.clock)
    && (forall i, j :: 0 <= i < j < |v.cache| ==> v.died[v.cache[i]] > v.died[v.cache[j]])
  }

  lemma RevivedOrdered(v: View, k: nat)
    requires CacheOrdered(v) && k < |v.cache|
    ensures CacheOrdered(v.(cache := v.cache[..k] + v.cache[k + 1..]))
  {
    var r := v.cache[..k] + v.cache[k + 1..];
    forall i | 0 <= i < |r| ensures r[i] == v.cache[if i < k then i else i + 1] {}
  }

  lemma OwnedSound(v: View, x: Node, hash: string -> nat, max: nat)
    requires Sound(v, hash, max) && x in v.strings
    ensures Sound(Owned(v, x), hash, max)
  {
    if v.strings[x].rc == 0 {
      var k := Position(v.cache, x);
      WithoutAt(v.cache, k);
      DistinctWithout(v.cache, k);
      RevivedOrdered(v, k);
      forall y | y in v.cache && y != x ensures y in Without(v.cache, x) { WithoutOthers(v.cache, x, y); }
    }
  }

  lemma {:induction false} WithoutOthers(s: seq<Node>, c: Node, x: Node)
    requires x in s && x != c
    ensures x in Without(s, c)
  {
    if s[0] != x { WithoutOthers(s[1..], c, x); }
  }

  lemma AddedSound(v: View, s: string, hash: string -> nat, max: nat)
    requires Sound(v, hash, max) && !Pooled(v, s)
    ensures Sound(Added(v, s, hash(s)), hash, max)
  {
  }

  lemma CreateSound(v: View, s: string, hash: string -> nat, max: nat)
    requires Sound(v, hash, max)
    ensures Sound(Create(v, s, hash).0, hash, max)
  {
    hide Sound;
    if Pooled(v, s) { OwnedSound(v, ObjectOf(v, s), hash, max); } else { AddedSound(v, s, hash, max); }
  }

  /** A string that has just died, before anything is spilled. */
  function Dead(v: View, x: Node): View
    requires x in v.strings
  {
    v.(strings := v.strings[x := v.strings[x].(rc := 0)], cache := [x] + v.cache,
       died := v.died[x := v.clock], clock := v.clock + 1)
  }

  lemma DeadSound(v: View, x: Node, hash: string -> nat, max: nat)
    requires Sound(v, hash, max) && x in v.strings && v.strings[x].rc == 1
    ensures Sound(Dead(v, x), hash, max + 1) && |Dead(v, x).cache| == |v.cache| + 1
  {
    hide Distinct;
    assert x !in v.cache;
    assert Distinct([x] + v.cache) by { DistinctPush(v.cache, x); }
  }

  lemma DistinctPush(s: seq<Node>, c: Node)
    requires Distinct(s) && c !in s
    ensures Distinct([c] + s)
  {
  }

  lemma SpilledSound(v: View, hash: string -> nat, max: nat)
    requires Sound(v, hash, max + 1) && v.cache != []
    ensures Sound(Spilled(v), hash, max)
  {
  }

  lemma DroppedSound(v: View, x: Node, hash: string -> nat, max: nat)
    requires Sound(v, hash, max) && x in v.strings && v.strings[x].rc > 0
    ensures Sound(Dropped(v, x, max), hash, max)
  {
    hide Distinct;
    if v.strings[x].rc == 1 {
      DeadSound(v, x, hash, max);
      if |v.cache| > max { SpilledSound(Dead(v, x), hash, max); }
    }
  }

  // ---------------------------------------------------------------------------------------
  // Runs
  // ---------------------------------------------------------------------------------------

  datatype Op = New(s: string) | Own(x: Node) | Disown(x: Node)

  /** Only live strings can be owned or disowned directly. */
  predicate CanDo(v: View, op: Op) {
    op.New? || (op.x in v.strings && v.strings[op.x].rc > 0)
  }

  ghost function Do(v: View, op: Op, hash: string -> nat, max: nat): View
    requires CanDo(v, op)
  {
    match op
    case New(s) => Create(v, s, hash).0
    case Own(x) => Owned(v, x)
    case Disown(x) => Dropped(v, x, max)
  }

  ghost predicate CanRun(v: View, run: seq<Op>, hash: string -> nat, max: nat)
    decreases |run|
  {
    run == [] || (CanDo(v, run[0]) && CanRun(Do(v, run[0], hash, max), run[1..], hash, max))
  }

  ghost function After(v: View, run: seq<Op>, hash: string -> nat, max: nat): View
    requires CanRun(v, run, hash, max)
    decreases |run|
  {
    if run == [] then v else After(Do(v, run[0], hash, max), run[1..], hash, max)
  }

  lemma {:induction false} RunSound(v: View, run: seq<Op>, hash: string -> nat, max: nat)
    requires Sound(v, hash, max) && CanRun(v, run, hash, max)
    ensures Sound(After(v, run, hash, max), hash, max)
    decreases |run|
  {
    hide Sound, Create, Owned, Dropped;
    if run != [] {
      match run[0]
      case New(s) => CreateSound(v, s, hash, max); RunSound(Create(v, s, hash).0, run[1..], hash, max);
      case Own(x) => OwnedSound(v, x, hash, max); RunSound(Owned(v, x), run[1..], hash, max);
      case Disown(x) => DroppedSound(v, x, hash, max); RunSound(Dropped(v, x, max), run[1..], hash, max);
    }
  }

  /** In every state that can be reached, whatever the hash function: pointer comparison decides
      whether two strings are equal (`s_eq`); creating a string that is there, alive or cached,
      gives the object that is there, and creating any other gives one that never was; and the
      cache has exactly the strings without references. */
  lemma PoolCorrect(run: seq<Op>, hash: string -> nat, max: nat, x: Node, y: Node, s: string)
    requires CanRun(EMPTY, run, hash, max)
    ensures var v := After(EMPTY, run, hash, max);
      && (x in v.strings && y in v.strings ==> (x == y <==> v.strings[x].content == v.strings[y].content))
      && (x in v.strings ==> Create(v, v.strings[x].content, hash).1 == x)
      && (!Pooled(v, s) ==> Create(v, s, hash).1 !in v.strings)
      && Create(v, s, hash).1 in Create(v, s, hash).0.strings
      && Create(v, s, hash).0.strings[Create(v, s, hash).1].content == s
      && (x in v.cache <==> x in v.strings && v.strings[x].rc == 0) && |v.cache| <= max + 1
  {
    hide After, CanRun;
    RunSound(EMPTY, run, hash, max);
    var v := After(EMPTY, run, hash, max);
    if x in v.strings {
      assert Pooled(v, v.strings[x].content);
    }
  }

  // ---------------------------------------------------------------------------------------
  // Who owns what
  // ---------------------------------------------------------------------------------------

  /** What an operation does to the number of references to string `x` that its users have: creating a
      string gives a reference to the object that is returned. */
  ghost function Taken(v: View, op: Op, x: Node, hash: string -> nat): int {
    match op
    case New(s) => if Create(v, s, hash).1 == x then 1 else 0
    case Own(y) => if y == x then 1 else 0
    case Disown(y) => if y == x then -1 else 0
  }

  /** The references that the users have after a run, if they had none before. */
  ghost function Outstanding(v: View, run: seq<Op>, x: Node, hash: string -> nat, max: nat): int
    requires CanRun(v, run, hash, max)
    decreases |run|
  {
    if run == [] then 0
    else Taken(v, run[0], x, hash) + Outstanding(Do(v, run[0], hash, max), run[1..], x, hash, max)
  }

  function RefCount(v: View, x: Node): int {
    if x in v.strings then v.strings[x].rc else 0
  }

  lemma DoCounts(v: View, op: Op, x: Node, hash: string -> nat, max: nat)
    requires Sound(v, hash, max) && CanDo(v, op)
    ensures Sound(Do(v, op, hash, max), hash, max)
    ensures RefCount(Do(v, op, hash, max), x) == RefCount(v, x) + Taken(v, op, x, hash)
  {
    match op
    case New(s) => CreateSound(v, s, hash, max);
    case Own(y) => OwnedSound(v, y, hash, max);
    case Disown(y) => DroppedSound(v, y, hash, max); DroppedCounts(v, y, x, hash, max);
  }

  /** Only strings without references are spilled. */
  lemma DroppedCounts(v: View, y: Node, x: Node, hash: string -> nat, max: nat)
    requires Sound(v, hash, max) && y in v.strings && v.strings[y].rc > 0
    ensures RefCount(Dropped(v, y, max), x) == RefCount(v, x) - if y == x then 1 else 0
  {
    if v.strings[y].rc == 1 && |v.cache| > max {
      DeadSound(v, y, hash, max);
      var d := Dead(v, y);
      assert d.cache[|d.cache| - 1] in d.cache;
    }
  }

  lemma {:induction false} RunCounts(v: View, run: seq<Op>, x: Node, hash: string -> nat, max: nat)
    requires Sound(v, hash, max) && CanRun(v, run, hash, max)
    ensures RefCount(After(v, run, hash, max), x) == RefCount(v, x) + Outstanding(v, run, x, hash, max)
    decreases |run|
  {
    hide Sound, Do, Taken;
    if run != [] {
      DoCounts(v, run[0], x, hash, max);
      RunCounts(Do(v, run[0], hash, max), run[1..], x, hash, max);
    }
  }

  /** After every run, the reference count of a string is the number of references that have been given
      out, by creating or owning it, and have not been given back; strings that are not there have
      none. So a string that somebody still holds is there, and cannot be spilled. */
  lemma ReferencesHeld(run: seq<Op>, hash: string -> nat, max: nat, x: Node)
    requires CanRun(EMPTY, run, hash, max)
    ensures var v, n := After(EMPTY, run, hash, max), Outstanding(EMPTY, run, x, hash, max);
      && n >= 0
      && (x in v.strings ==> v.strings[x].rc == n)
      && (n > 0 ==> x in v.strings && x !in v.cache)
      && (n == 0 && x in v.strings ==> x in v.cache)
  {
    hide After, CanRun, Outstanding;
    RunSound(EMPTY, run, hash, max);
    RunCounts(EMPTY, run, x, hash, max);
  }

  /** What is destroyed is the string that has been dead longest. */
  lemma SpillDropsOldest(run: seq<Op>, hash: string -> nat, max: nat, x: Node)
    requires CanRun(EMPTY, run, hash, max) && CanDo(After(EMPTY, run, hash, max), Disown(x))
    ensures var v := After(EMPTY, run, hash, max);
      var v' := Dropped(v, x, max);
      forall z, y :: z in v.strings && z !in v'.strings && y in v'.cache ==>
        z in v'.died && y in v'.died && v'.died[z] < v'.died[y]
  {
    hide After, CanRun;
    RunSound(EMPTY, run, hash, max);
    var v := After(EMPTY, run, hash, max);
    var v' := Dropped(v, x, max);
    if v.strings[x].rc == 1 && |v.cache| > max {
      DeadSound(v, x, hash, max);
      var d := Dead(v, x);
      var last := d.cache[|d.cache| - 1];
      forall y | y in v'.cache ensures y in d.died && d.died[last] < d.died[y] {
        var i := Position(v'.cache, y);
        assert d.cache[i] == y;
      }
    }
  }

  // ---------------------------------------------------------------------------------------
  // Comparing
  // ---------------------------------------------------------------------------------------

  /** Whether `strncmp` finds the first `n` characters equal. It stops at a null character. */
  predicate StrNCmpEqual(a: string, b: string, n: nat)
    requires n <= |a| && n <= |b|
  {
    n == 0 || (a[0] == b[0] && (a[0] == '\0' || StrNCmpEqual(a[1..], b[1..], n - 1)))
  }

  /** For strings of the same length without null characters, that is equality. */
  lemma {:induction false} StrNCmpIsEquality(a: string, b: string)
    requires |a| == |b| && '\0' !in a
    ensures StrNCmpEqual(a, b, |a|) <==> a == b
  {
    if a != [] {
      StrNCmpIsEquality(a[1..], b[1..]);
      assert a == [a[0]] + a[1..] && b == [b[0]] + b[1..];
    }
  }

  // ---------------------------------------------------------------------------------------
  // The pool
  // ---------------------------------------------------------------------------------------

  /** Each string is in the list of its bucket, and only there. */
  ghost predicate TableOk(table: seq<Ptr>, snext: map<Node, Ptr>, sprev: map<Node, Ptr>, buckets: seq<seq<Node>>,
      strings: map<Node, Str>) {
    && |table| == |buckets| == PS_TABLESIZE
    && (forall h :: 0 <= h < PS_TABLESIZE ==> InBucket(table[h], snext, sprev, buckets[h]))
    && (forall h :: 0 <= h < PS_TABLESIZE ==> OfBucket(buckets[h], strings, h))
    && (forall x :: x in strings ==> x in buckets[strings[x].hash % PS_TABLESIZE])
  }

  ghost predicate InBucket(head: Ptr, snext: map<Node, Ptr>, sprev: map<Node, Ptr>, bucket: seq<Node>) {
    Linked(head, At(bucket, |bucket| - 1), snext, sprev, bucket)
  }

  ghost predicate OfBucket(bucket: seq<Node>, strings: map<Node, Str>, h: nat) {
    forall x :: x in bucket ==> x in strings && strings[x].hash % PS_TABLESIZE == h
  }

  lemma LinkedPush(next: map<Node, Ptr>, prev: map<Node, Ptr>, s: seq<Node>, c: Node)
    requires Linked(At(s, 0), At(s, |s| - 1), next, prev, s) && c !in s
    ensures var next' := next[c := At(s, 0)];
      var prev' := (if s != [] then prev[s[0] := Some(c)] else prev)[c := None];
      Linked(Some(c), At([c] + s, |s|), next', prev', [c] + s)
  {
    var r := [c] + s;
    DistinctPush(s, c);
    var next' := next[c := At(s, 0)];
    var prev' := (if s != [] then prev[s[0] := Some(c)] else prev)[c := None];
    forall i | 0 <= i < |r| ensures r[i] in next' && next'[r[i]] == At(r, i + 1) {
      if i > 0 { assert r[i] == s[i - 1] && s[i - 1] in next; }
    }
    forall i | 0 <= i < |r| ensures r[i] in prev' && prev'[r[i]] == At(r, i - 1) {
      if i > 0 { assert r[i] == s[i - 1] && s[i - 1] in prev; }
      if i > 1 { assert s[i - 1] != s[0]; }
    }
  }

  /** The heads of other buckets, and the links of their strings, are not affected by changes to
      nodes that are in bucket `h` or new. */
  lemma OtherBucket(table: seq<Ptr>, next: map<Node, Ptr>, prev: map<Node, Ptr>, buckets: seq<seq<Node>>,
                    strings: map<Node, Str>,
                    next': map<Node, Ptr>, prev': map<Node, Ptr>, h: nat, g: nat)
    requires TableOk(table, next, prev, buckets, strings) && h < PS_TABLESIZE && g < PS_TABLESIZE && g != h
    requires forall x :: x in strings && x !in buckets[h] ==>
      (x in next ==> x in next' && next'[x] == next[x]) && (x in prev ==> x in prev' && prev'[x] == prev[x])
    ensures InBucket(table[g], next', prev', buckets[g])
  {
    var b := buckets[g];
    assert InBucket(table[g], next, prev, b) && OfBucket(b, strings, g) && OfBucket(buckets[h], strings, h);
    ListKept(table[g], At(b, |b| - 1), next, prev, next', prev', b);
  }

  lemma TablePush(table: seq<Ptr>, next: map<Node, Ptr>, prev: map<Node, Ptr>, buckets: seq<seq<Node>>,
                  strings: map<Node, Str>,
                  h: nat, o: Node, ps: Str)
    requires TableOk(table, next, prev, buckets, strings)
    requires h < PS_TABLESIZE && o !in strings && ps.hash % PS_TABLESIZE == h
    ensures var next' := next[o := table[h]];
      var prev' := (if table[h].Some? then prev[table[h].value := Some(o)] else prev)[o := None];
      TableOk(table[h := Some(o)], next', prev', buckets[h := [o] + buckets[h]], strings[o := ps])
  {
    hide InBucket, OfBucket;
    var b := buckets[h];
    BucketPushed(table[h], next, prev, b, o, strings, h);
    var next' := next[o := table[h]];
    var prev' := (if table[h].Some? then prev[table[h].value := Some(o)] else prev)[o := None];
    forall g | 0 <= g < PS_TABLESIZE && g != h ensures InBucket(table[g], next', prev', buckets[g]) {
      OtherBucket(table, next, prev, buckets, strings, next', prev', h, g);
    }
    forall g | 0 <= g < PS_TABLESIZE && g != h ensures OfBucket(buckets[g], strings[o := ps], g) {
      MoreStrings(buckets[g], strings, g, o, ps);
    }
    assert OfBucket(b, strings, h);
    MoreStrings(b, strings, h, o, ps);
    BucketHasNew(b, strings[o := ps], h, o);
  }

  lemma BucketHasNew(b: seq<Node>, strings: map<Node, Str>, h: nat, o: Node)
    requires OfBucket(b, strings, h) && o in strings && strings[o].hash % PS_TABLESIZE == h
    ensures OfBucket([o] + b, strings, h)
  {
  }

  lemma MoreStrings(b: seq<Node>, strings: map<Node, Str>, h: nat, o: Node, ps: Str)
    requires OfBucket(b, strings, h) && o !in strings
    ensures OfBucket(b, strings[o := ps], h)
  {
  }

  lemma BucketPushed(head: Ptr, next: map<Node, Ptr>, prev: map<Node, Ptr>, b: seq<Node>, o: Node, strings: map<Node,
                     Str>, h: nat)
    requires InBucket(head, next, prev, b) && OfBucket(b, strings, h) && o !in strings
    ensures InBucket(Some(o), next[o := head], (if head.Some? then prev[head.value := Some(o)] else prev)[o := None],
            [o] + b)
    ensures head.Some? ==> head.value in b
  {
    hide Linked;
    LinkedEnds(head, At(b, |b| - 1), next, prev, b);
    LinkedPush(next, prev, b, o);
  }

  lemma LinkedEnds(first: Ptr, last: Ptr, next: map<Node, Ptr>, prev: map<Node, Ptr>, s: seq<Node>)
    requires Linked(first, last, next, prev, s)
    ensures first == (if s == [] then None else Some(s[0])) == At(s, 0) && last == At(s, |s| - 1) && Distinct(s)
  {
  }

  lemma BucketLinks(table: seq<Ptr>, next: map<Node, Ptr>, prev: map<Node, Ptr>, buckets: seq<seq<Node>>,
                    strings: map<Node, Str>,
                    h: nat, k: nat)
    requires TableOk(table, next, prev, buckets, strings) && h < PS_TABLESIZE && k < |buckets[h]|
    ensures var b := buckets[h]; var o := b[k];
      && o in next && next[o] == At(b, k + 1) && o in prev && prev[o] == At(b, k - 1)
      && table[h] == At(b, 0) && (table[h] == Some(o) <==> k == 0)
      && (k > 0 ==> b[k - 1] != o) && (k + 1 < |b| ==> b[k + 1] != o)
  {
    var b := buckets[h];
    assert InBucket(table[h], next, prev, b);
    LinkedAt(table[h], At(b, |b| - 1), next, prev, b, k);
  }

  lemma TableUnlink(table: seq<Ptr>, next: map<Node, Ptr>, prev: map<Node, Ptr>, buckets: seq<seq<Node>>,
                    strings: map<Node, Str>,
                    h: nat, k: nat, table': seq<Ptr>, next': map<Node, Ptr>, prev': map<Node, Ptr>)
    requires TableOk(table, next, prev, buckets, strings) && h < PS_TABLESIZE && k < |buckets[h]|
    requires var b := buckets[h];
      && table' == table[h := if k == 0 then At(b, 1) else table[h]]
      && next' == (if k > 0 then next[b[k - 1] := At(b, k + 1)] else next)[b[k] := None]
      && prev' == (if k + 1 < |b| then prev[b[k + 1] := At(b, k - 1)] else prev)[b[k] := None]
    ensures var b := buckets[h];
      TableOk(table', next', prev', buckets[h := Without(b, b[k])], strings - {b[k]})
  {
    hide InBucket;
    var b := buckets[h];
    var o := b[k];
    var b' := Without(b, o);
    BucketUnlinked(table[h], next, prev, next', prev', b, k);
    forall g | 0 <= g < PS_TABLESIZE && g != h ensures InBucket(table'[g], next', prev', buckets[g]) {
      OtherBucket(table, next, prev, buckets, strings, next', prev', h, g);
    }
    var after := buckets[h := b'];
    forall g | 0 <= g < PS_TABLESIZE ensures OfBucket(after[g], strings - {o}, g) {
      assert OfBucket(buckets[g], strings, g) && OfBucket(b, strings, h);
    }
    forall x | x in strings && x != o && x in b ensures x in b' { WithoutOthers(b, o, x); }
  }

  lemma BucketUnlinked(head: Ptr, next: map<Node, Ptr>, prev: map<Node, Ptr>, next': map<Node, Ptr>, prev': map<Node,
                       Ptr>, b: seq<Node>, k: nat)
    requires InBucket(head, next, prev, b) && k < |b|
    requires next' == (if k > 0 then next[b[k - 1] := At(b, k + 1)] else next)[b[k] := None]
    requires prev' == (if k + 1 < |b| then prev[b[k + 1] := At(b, k - 1)] else prev)[b[k] := None]
    ensures InBucket(if k == 0 then At(b, 1) else head, next', prev', Without(b, b[k]))
  {
    hide Linked, At;
    LinkedAt(head, At(b, |b| - 1), next, prev, b, k);
    WithoutAt(b, k);
    LinkedUnlink(next, prev, next', prev', b, k);
    HeadWithout(b, k);
  }

  lemma HeadWithout(b: seq<Node>, k: nat)
    requires k < |b|
    ensures var r := b[..k] + b[k + 1..]; At(r, 0) == if k == 0 then At(b, 1) else At(b, 0)
  {
  }

  lemma BucketHead(table: seq<Ptr>, next: map<Node, Ptr>, prev: map<Node, Ptr>, buckets: seq<seq<Node>>,
                   strings: map<Node, Str>, h: nat)
    requires TableOk(table, next, prev, buckets, strings) && h < PS_TABLESIZE
    ensures table[h] == At(buckets[h], 0)
  {
    assert InBucket(table[h], next, prev, buckets[h]);
  }

  lemma BucketStep(table: seq<Ptr>, next: map<Node, Ptr>, prev: map<Node, Ptr>, buckets: seq<seq<Node>>,
                   strings: map<Node, Str>,
                   h: nat, i: nat)
    requires TableOk(table, next, prev, buckets, strings) && h < PS_TABLESIZE && i < |buckets[h]|
    ensures var x := buckets[h][i]; x in next && next[x] == At(buckets[h], i + 1) && x in strings
  {
    assert InBucket(table[h], next, prev, buckets[h]) && OfBucket(buckets[h], strings, h);
  }

  lemma NotInBucket(v: View, buckets: seq<seq<Node>>, s: string, hash: string -> nat, max: nat)
    requires Sound(v, hash, max) && |buckets| == PS_TABLESIZE
    requires forall x :: x in v.strings ==> x in buckets[v.strings[x].hash % PS_TABLESIZE]
    requires var b := buckets[hash(s) % PS_TABLESIZE];
      forall j :: 0 <= j < |b| ==> b[j] in v.strings && v.strings[b[j]].content != s
    ensures !Pooled(v, s)
  {
    if Pooled(v, s) {
      var x := ObjectOf(v, s);
    }
  }

  lemma TableSame(table: seq<Ptr>, next: map<Node, Ptr>, prev: map<Node, Ptr>, buckets: seq<seq<Node>>,
                  strings: map<Node, Str>,
                  o: Node, ps: Str)
    requires TableOk(table, next, prev, buckets, strings) && o in strings && ps.hash == strings[o].hash
    ensures TableOk(table, next, prev, buckets, strings[o := ps])
  {
    hide InBucket;
    forall g | 0 <= g < PS_TABLESIZE ensures OfBucket(buckets[g], strings[o := ps], g) {
      assert OfBucket(buckets[g], strings, g);
    }
  }

  lemma CacheLength(v: View, o: Node, hash: string -> nat, max: nat)
    requires Sound(v, hash, max) && o in v.strings
    ensures v.strings[o].rc == 0 ==> o in v.cache && |Without(v.cache, o)| == |v.cache| - 1
    ensures v.strings[o].rc > 0 ==> o !in v.cache
    ensures v.cache != [] ==> v.cache[|v.cache| - 1] in v.strings
  {
    if v.strings[o].rc == 0 {
      var k := Position(v.cache, o);
      WithoutAt(v.cache, k);
    }
  }

  lemma NextIsNew(v: View, hash: string -> nat, max: nat)
    requires Sound(v, hash, max)
    ensures v.next !in v.strings && v.next !in v.cache
  {
  }

  lemma CacheEnd(first: Ptr, last: Ptr, next: map<Node, Ptr>, prev: map<Node, Ptr>, s: seq<Node>)
    requires Linked(first, last, next, prev, s) && s != []
    ensures last == Some(s[|s| - 1]) && Without(s, s[|s| - 1]) == s[..|s| - 1]
  {
    WithoutAt(s, |s| - 1);
  }

  class Pool {
    const hash: string -> nat
    const table: array<Ptr>
    const limbo: Links
    const cache: DLList
    const scacheMax: nat
    var snext: map<Node, Ptr>
    var sprev: map<Node, Ptr>
    var strings: map<Node, Str>
    var scacheSize: int
    var next: Node
    ghost var buckets: seq<seq<Node>>
    ghost var dead: seq<Node>
    ghost var died: map<Node, nat>
    ghost var clock: nat

    ghost function V(): View
      reads this
    {
      View(strings, dead, next, died, clock)
    }

    ghost predicate Valid()
      reads this, table, limbo, cache
    {
      Listed() && scacheSize == |dead| && Sound(V(), hash, scacheMax)
    }

    /** The linked lists are what `buckets` and `dead` say. */
    ghost predicate Listed()
      reads this, table, limbo, cache
    {
      TableOk(table[..], snext, sprev, buckets, strings) && cache.Holds(limbo, dead)
    }

    /** `eel_ps_open`. */
    constructor (hash: string -> nat, max: nat)
      ensures Valid() && V() == EMPTY && this.hash == hash && scacheMax == max
      ensures fresh(table) && fresh(limbo) && fresh(cache)
    {
      this.hash := hash;
      scacheMax := max;
      table := new Ptr[PS_TABLESIZE](_ => None);
      limbo := new Links();
      cache := new DLList();
      snext, sprev, strings, scacheSize, next := map[], map[], map[], 0, 0;
      buckets := seq(PS_TABLESIZE, _ => []);
      dead, died, clock := [], map[], 0;
    }

    /** `ps_push`. */
    method BucketPush(h: nat, o: Node, ghost ps: Str)
      requires Listed() && h < PS_TABLESIZE && o !in strings && ps.hash % PS_TABLESIZE == h
      modifies table, `snext, `sprev, `buckets
      ensures TableOk(table[..], snext, sprev, buckets, strings[o := ps])
    {
      hide Linked, InBucket, At;
      ghost var table0, next0, prev0, buckets0 := table[..], snext, sprev, buckets;
      snext := snext[o := table[h]];
      if table[h].Some? {
        sprev := sprev[table[h].value := Some(o)];
      }
      sprev := sprev[o := None];
      table[h] := Some(o);
      buckets := buckets[h := [o] + buckets[h]];
      TablePush(table0, next0, prev0, buckets0, strings, h, o, ps);
    }

    /** `ps_unlink`. */
    method BucketUnlink(h: nat, o: Node)
      requires Listed() && o in strings && h == strings[o].hash % PS_TABLESIZE
      modifies table, `snext, `sprev, `buckets
      ensures TableOk(table[..], snext, sprev, buckets, strings - {o})
    {
      hide Linked, Without, InBucket;
      ghost var table0, next0, prev0, buckets0 := table[..], snext, sprev, buckets;
      ghost var k := Position(buckets[h], o);
      BucketLinks(table0, next0, prev0, buckets0, strings, h, k);
      var n, p := snext[o], sprev[o];
      if table[h] == Some(o) {
        table[h] := n;
      } else if p.Some? {
        snext := snext[p.value := n];
      }
      if n.Some? {
        sprev := sprev[n.value := p];
      }
      sprev := sprev[o := None];
      snext := snext[o := None];
      buckets := buckets[h := Without(buckets[h], o)];
      TableUnlink(table0, next0, prev0, buckets0, strings, h, k, table[..], snext, sprev);
    }

    /** `ps_find`, with the hash of the string. */
    method Find(s: string) returns (p: Ptr, h: nat)
      requires Valid() && '\0' !in s
      ensures h == hash(s)
      ensures p.Some? <==> Pooled(V(), s)
      ensures p.Some? ==> p.value == ObjectOf(V(), s)
    {
      hide Linked, InBucket, OfBucket, CacheExact, CacheOrdered;
      h := hash(s);
      ghost var bucket, i := buckets[h % PS_TABLESIZE], 0;
      BucketHead(table[..], snext, sprev, buckets, strings, h % PS_TABLESIZE);
      p := table[h % PS_TABLESIZE];
      while p.Some?
        invariant i <= |bucket| && p == At(bucket, i)
        invariant forall j :: 0 <= j < i ==> bucket[j] in strings && strings[bucket[j]].content != s
        decreases |bucket| - i
      {
        BucketStep(table[..], snext, sprev, buckets, strings, h % PS_TABLESIZE, i);
        var ps := strings[p.value];
        if ps.hash == h && |ps.content| == |s| {
          StrNCmpIsEquality(s, ps.content);
          if StrNCmpEqual(s, ps.content, |s|) {
            assert Pooled(V(), s);
            return;
          }
        }
        p := snext[p.value];
        i := i + 1;
      }
      NotInBucket(V(), buckets, s, hash, scacheMax);
    }

    /** `ps_resurrect`. */
    method Resurrect(o: Node)
      requires Valid() && o in strings
      modifies this, table, limbo, cache
      ensures Valid() && V() == Owned(old(V()), o)
      ensures o in strings && strings[o] == old(strings[o]).(rc := old(strings[o].rc) + 1) && o !in dead
    {
      hide TableOk, InBucket, OfBucket, Linked, Sound, Without, At;
      OwnedSound(V(), o, hash, scacheMax);
      var ps := strings[o];
      CacheLength(V(), o, hash, scacheMax);
      if ps.rc == 0 {
        cache.Unlink(limbo, o, dead);
        scacheSize := scacheSize - 1;
        dead := Without(dead, o);
      }
      TableSame(table[..], snext, sprev, buckets, strings, o, ps.(rc := ps.rc + 1));
      strings := strings[o := ps.(rc := ps.rc + 1)];
    }

    /** `eel_ps_nnew`. */
    method NNew(s: string) returns (o: Node)
      requires Valid() && '\0' !in s
      modifies this, table, limbo, cache
      ensures Valid() && (V(), o) == Create(old(V()), s, hash)
      ensures o in strings && strings[o].content == s && o !in dead
      ensures strings[o].rc == if o in old(strings) then old(strings[o].rc) + 1 else 1
    {
      hide TableOk, InBucket, OfBucket, Linked, Sound, Without, At;
      CreateSound(V(), s, hash, scacheMax);
      var p, h := Find(s);
      if p.Some? {
        o := p.value;
        Resurrect(o);
        return;
      }
      o := next;
      assert o !in strings && o !in dead by { NextIsNew(V(), hash, scacheMax); }
      BucketPush(h % PS_TABLESIZE, o, Str(s, h, 1));
      strings := strings[o := Str(s, h, 1)];
      next := next + 1;
    }

    /** `really_destruct`, and freeing the object. */
    method ReallyDestruct(o: Node)
      requires Listed() && o in strings
      modifies table, `snext, `sprev, `buckets, `strings
      ensures Listed() && strings == old(strings) - {o}
    {
      hide TableOk, Linked, InBucket, OfBucket, At;
      BucketUnlink(strings[o].hash % PS_TABLESIZE, o);
      strings := strings - {o};
    }

    /** `ps_cache`. */
    method PsCache(o: Node)
      requires Listed() && o !in dead && o in strings && scacheSize == |dead|
      requires dead != [] ==> dead[|dead| - 1] in strings
      modifies this, table, limbo, cache
      ensures Listed() && next == old(next)
      ensures old(scacheSize) <= scacheMax ==>
                scacheSize == old(scacheSize) + 1 && dead == [o] + old(dead) && strings == old(strings)
      ensures old(scacheSize) > scacheMax ==> var all := [o] + old(dead); var last := all[|all| - 1];
                scacheSize == old(scacheSize) && dead == all[..|all| - 1] && strings == old(strings) - {last}
      ensures died == old(died)[o := old(clock)] && clock == old(clock) + 1
    {
      hide TableOk, InBucket, OfBucket, Linked, Sound, Without, At;
      cache.Push(limbo, o, dead);
      dead := [o] + dead;
      died := died[o := clock];
      clock := clock + 1;
      if scacheSize > scacheMax {
        CacheEnd(cache.first, cache.last, limbo.next, limbo.prev, dead);
        var last := cache.last.value;
        cache.Unlink(limbo, last, dead);
        dead := Without(dead, last);
        ReallyDestruct(last);
      } else {
        scacheSize := scacheSize + 1;
      }
    }

    /** Disowning a string, with `ps_cache` as its destructor. */
    method Disown(o: Node)
      requires Valid() && o in strings && strings[o].rc > 0
      modifies this, table, limbo, cache
      ensures Valid() && V() == Dropped(old(V()), o, scacheMax)
    {
      hide TableOk, InBucket, OfBucket, Linked, Sound, Without, At;
      DroppedSound(V(), o, hash, scacheMax);
      var ps := strings[o];
      TableSame(table[..], snext, sprev, buckets, strings, o, ps.(rc := ps.rc - 1));
      CacheLength(V(), o, hash, scacheMax);
      strings := strings[o := ps.(rc := ps.rc - 1)];
      if ps.rc > 1 {
        return;
      }
      PsCache(o);
    }
  }
}
