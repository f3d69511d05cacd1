// Small shared vocabulary: optional values and the shape of a JSON field as
// the exporter scripts read it with `dict.get`.
module Common {

  datatype Option<+T> = None | Some(value: T)

  /** A JSON string-valued field: absent from the object, present as `null`,
      or present as a string. `dict.get(key, default)` returns the default only
      for `Missing`; `null` comes back as Python's `None`. */
  datatype Field = Missing | Null | Str(s: string)
  {
    /** Python truthiness of the value `get` returns (no default). */
    predicate Truthy() {
      Str? && s != ""
    }

    /** `get(key, default)` for a string default. */
    function GetOr(default: string): (r: Field)
      ensures Missing? ==> r == Str(default)
      ensures !Missing? ==> r == this
    {
      if Missing? then Str(default) else this
    }
  }

  /** A timestamp field as read by the scripts: absent, present but falsy
      (empty string or null), present but not parseable by the date parser,
      or parsed. `T` is whatever the parsed value is in a given script. */
  datatype Stamp<+T> = Absent | Blank | Garbled(raw: string) | At(value: T)
  {
    /** The key is in the object (`'startTime' in item`). */
    predicate Present() {
      !Absent?
    }

    /** Python truthiness of the stored value. */
    predicate Truthy() {
      Garbled? || At?
    }
  }

  function Max(a: int, b: int): (m: int)
    ensures m >= a && m >= b && (m == a || m == b)
  {
    if a >= b then a else b
  }

  function Min(a: int, b: int): (m: int)
    ensures m <= a && m <= b && (m == a || m == b)
  {
    if a <= b then a else b
  }

  function Sum(xs: seq<int>): int
  {
    if xs == [] then 0 else xs[0] + Sum(xs[1..])
  }

  lemma {:induction false} SumAppend(xs: seq<int>, ys: seq<int>)
    ensures Sum(xs + ys) == Sum(xs) + Sum(ys)
  {
    if xs == [] {
      assert xs + ys == ys;
    } else {
      assert (xs + ys)[1..] == xs[1..] + ys;
      SumAppend(xs[1..], ys);
    }
  }

  /** Where element `i` of `a + b` comes from. */
  lemma AppendIndex<T>(a: seq<T>, b: seq<T>, ab: seq<T>, i: nat)
    requires ab == a + b && i < |ab|
    ensures i < |a| ==> ab[i] == a[i]
    ensures |a| <= i ==> ab[i] == b[i - |a|]
  {
  }

  /** Concatenation regroups freely; stated once so that proofs over
      recursive sequence functions need not rediscover it. */
  lemma AppendAssoc<T>(a: seq<T>, b: seq<T>, c: seq<T>)
    ensures a + b + c == a + (b + c)
  {
  }

  /** The elements of `xs` that pass `p`, in order: a list comprehension
      with an `if`, or a loop appending the elements that pass. */
  function Filter<T(!new)>(xs: seq<T>, p: T -> bool): (r: seq<T>)
    ensures |r| <= |xs|
    ensures forall x :: x in r <==> x in xs && p(x)
  {
    if xs == [] then [] else (if p(xs[0]) then [xs[0]] else []) + Filter(xs[1..], p)
  }

  /** Filtering distributes over concatenation, so it keeps the input order. */
  lemma {:induction false} FilterAppend<T(!new)>(xs: seq<T>, ys: seq<T>, p: T -> bool)
    ensures Filter(xs + ys, p) == Filter(xs, p) + Filter(ys, p)
  {
    if xs == [] {
      assert xs + ys == ys;
    } else {
      var head := if p(xs[0]) then [xs[0]] else [];
      assert (xs + ys)[0] == xs[0];
      assert (xs + ys)[1..] == xs[1..] + ys;
      FilterAppend(xs[1..], ys, p);
      AppendAssoc(head, Filter(xs[1..], p), Filter(ys, p));
    }
  }

  /** A filter on one element. */
  lemma FilterSingle<T(!new)>(x: T, p: T -> bool)
    ensures Filter([x], p) == if p(x) then [x] else []
  {
    assert [x][1..] == [];
  }

  /** Filtering a list with one more element at its end. */
  lemma FilterAppendOne<T(!new)>(xs: seq<T>, x: T, p: T -> bool)
    ensures Filter(xs + [x], p) == Filter(xs, p) + if p(x) then [x] else []
  {
    FilterAppend(xs, [x], p);
    FilterSingle(x, p);
  }

  /** One more element read by a filtering loop. */
  lemma FilterSnoc<T(!new)>(xs: seq<T>, k: nat, next: nat, p: T -> bool)
    requires next == k + 1 <= |xs|
    ensures Filter(xs[..next], p) == Filter(xs[..k], p) + (if p(xs[k]) then [xs[k]] else [])
  {
    assert xs[..next] == xs[..k] + [xs[k]];
    FilterAppend(xs[..k], [xs[k]], p);
    assert [xs[k]][1..] == [];
  }

  /** A filter every element passes returns its input unchanged. */
  lemma {:induction false} FilterAllPass<T(!new)>(xs: seq<T>, p: T -> bool)
    requires forall i :: 0 <= i < |xs| ==> p(xs[i])
    ensures Filter(xs, p) == xs
  {
    if xs != [] {
      FilterAllPass(xs[1..], p);
    }
  }

  /** A filter and its negation split the input: every element goes to
      exactly one side. */
  lemma {:induction false} FilterPartition<T(!new)>(xs: seq<T>, p: T -> bool, q: T -> bool)
    requires forall x :: q(x) == !p(x)
    ensures |Filter(xs, p)| + |Filter(xs, q)| == |xs|
  {
    if xs != [] {
      FilterPartition(xs[1..], p, q);
    }
  }

  /** A filter keeps its whole input exactly when every element passes. */
  lemma {:induction false} FilterKeepsAll<T(!new)>(xs: seq<T>, p: T -> bool)
    ensures |Filter(xs, p)| == |xs| <==> forall x :: x in xs ==> p(x)
  {
    if xs != [] {
      FilterKeepsAll(xs[1..], p);
      assert forall x :: x in xs <==> x == xs[0] || x in xs[1..];
    }
  }

  /** `FilterPartition` where `p` and `q` are complements on the elements
      of `xs` only. */
  lemma {:induction false} FilterPartitionIn<T(!new)>(xs: seq<T>, p: T -> bool, q: T -> bool)
    requires forall x :: x in xs ==> (q(x) <==> !p(x))
    ensures |Filter(xs, p)| + |Filter(xs, q)| == |xs|
  {
    if xs != [] {
      assert forall x :: x in xs[1..] ==> x in xs;
      FilterPartitionIn(xs[1..], p, q);
    }
  }

  /** Two filters no element passes both of take at most the whole input
      between them. */
  lemma {:induction false} FilterDisjoint<T(!new)>(xs: seq<T>, p: T -> bool, q: T -> bool)
    requires forall x :: !(p(x) && q(x))
    ensures |Filter(xs, p)| + |Filter(xs, q)| <= |xs|
  {
    if xs != [] {
      FilterDisjoint(xs[1..], p, q);
    }
  }

  /** A filter keeps something exactly when some element passes it. */
  lemma FilterNonEmpty<T(!new)>(xs: seq<T>, p: T -> bool)
    ensures Filter(xs, p) != [] <==> exists i :: 0 <= i < |xs| && p(xs[i])
  {
    var r := Filter(xs, p);
    if r != [] {
      assert r[0] in r;
    }
    if exists i :: 0 <= i < |xs| && p(xs[i]) {
      var i :| 0 <= i < |xs| && p(xs[i]);
      assert xs[i] in xs;
      assert xs[i] in r;
    }
  }

  /** Each kept element stands at some position of the input. */
  lemma FilterSource<T(!new)>(xs: seq<T>, p: T -> bool, j: nat)
    requires j < |Filter(xs, p)|
    ensures exists i :: 0 <= i < |xs| && xs[i] == Filter(xs, p)[j] && p(xs[i])
  {
    var r := Filter(xs, p);
    assert r[j] in r;
  }

  /** Each element that passes is kept at some position. */
  lemma FilterKeeps<T(!new)>(xs: seq<T>, p: T -> bool, i: nat)
    requires i < |xs| && p(xs[i])
    ensures exists j :: 0 <= j < |Filter(xs, p)| && Filter(xs, p)[j] == xs[i]
  {
    assert xs[i] in xs;
    assert xs[i] in Filter(xs, p);
  }

  /** A filter keeps two or more elements exactly when two different
      positions pass it. */
  lemma {:induction false} FilterTwo<T(!new)>(xs: seq<T>, p: T -> bool)
    ensures |Filter(xs, p)| >= 2 <==> exists i, j :: 0 <= i < j < |xs| && p(xs[i]) && p(xs[j])
  {
    if xs != [] {
      var rest := xs[1..];
      FilterTwo(rest, p);
      FilterNonEmpty(rest, p);
      if exists i, j :: 0 <= i < j < |xs| && p(xs[i]) && p(xs[j]) {
        var i, j :| 0 <= i < j < |xs| && p(xs[i]) && p(xs[j]);
        assert rest[j - 1] == xs[j];
        if i > 0 {
          assert rest[i - 1] == xs[i];
        }
      }
      if |Filter(xs, p)| >= 2 {
        if p(xs[0]) {
          var j :| 0 <= j < |rest| && p(rest[j]);
          assert xs[j + 1] == rest[j];
        } else {
          var i, j :| 0 <= i < j < |rest| && p(rest[i]) && p(rest[j]);
          assert xs[i + 1] == rest[i] && xs[j + 1] == rest[j];
        }
      }
    }
  }

  // ----- Grouping: a `defaultdict(list)` filled by a loop -----

  /** The keys some element has. */
  function Keys<T, K>(xs: seq<T>, key: T -> Option<K>): set<K> {
    set i | 0 <= i < |xs| && key(xs[i]).Some? :: key(xs[i]).value
  }

  /** The test "has key `k`", as one value shared by every use. */
  function KeyIs<T, K(==)>(key: T -> Option<K>, k: K): T -> bool {
    x => key(x) == Some(k)
  }

  /** Each key to the elements that have it, in order. */
  function Group<T(!new), K(!new)>(xs: seq<T>, key: T -> Option<K>): map<K, seq<T>> {
    map k | k in Keys(xs, key) :: Filter(xs, KeyIs(key, k))
  }

  lemma FilterNonePass<T(!new)>(xs: seq<T>, p: T -> bool)
    requires forall i :: 0 <= i < |xs| ==> !p(xs[i])
    ensures Filter(xs, p) == []
  {
    FilterNonEmpty(xs, p);
  }

  lemma KeysSnoc<T, K>(xs: seq<T>, i: nat, next: nat, key: T -> Option<K>)
    requires next == i + 1 <= |xs|
    ensures Keys(xs[..next], key) == Keys(xs[..i], key) + (if key(xs[i]).Some? then {key(xs[i]).value} else {})
  {
    var a := Keys(xs[..i], key);
    var b := Keys(xs[..next], key);
    forall k | k in b ensures k in a || (key(xs[i]).Some? && k == key(xs[i]).value) {
      var j :| 0 <= j < next && key(xs[..next][j]).Some? && key(xs[..next][j]).value == k;
      if j < i {
        assert xs[..next][j] == xs[..i][j];
      }
    }
    forall k | k in a ensures k in b {
      var j :| 0 <= j < i && key(xs[..i][j]).Some? && key(xs[..i][j]).value == k;
      assert xs[..next][j] == xs[..i][j];
    }
    if key(xs[i]).Some? {
      assert xs[..next][i] == xs[i];
    }
  }

  /** One more element read by a grouping loop. */
  lemma GroupSnoc<T(!new), K(!new)>(xs: seq<T>, i: nat, next: nat, key: T -> Option<K>)
    requires next == i + 1 <= |xs|
    ensures var g := Group(xs[..i], key);
      Group(xs[..next], key) == match key(xs[i])
        case None => g
        case Some(k) => g[k := (if k in g then g[k] else []) + [xs[i]]]
  {
    var g := Group(xs[..i], key);
    var g' := Group(xs[..next], key);
    var x := xs[i];
    KeysSnoc(xs, i, next, key);
    match key(x)
    case None =>
      forall k | k in g' ensures g'[k] == g[k] {
        FilterSnoc(xs, i, next, KeyIs(key, k));
      }
      assert g' == g;
    case Some(k) =>
      var h := g[k := (if k in g then g[k] else []) + [x]];
      if k !in g {
        FilterNonePass(xs[..i], KeyIs(key, k));
      }
      forall k' | k' in g' ensures g'[k'] == h[k'] {
        FilterSnoc(xs, i, next, KeyIs(key, k'));
      }
      assert g' == h;
  }

  /** `for x in xs: groups[key(x)].append(x)`, skipping elements without a key. */
  method GroupBy<T(!new), K(!new)>(xs: seq<T>, key: T -> Option<K>) returns (groups: map<K, seq<T>>)
    ensures groups == Group(xs, key)
  {
    groups := map[];
    var i := 0;
    while i < |xs|
      invariant 0 <= i <= |xs|
      invariant groups == Group(xs[..i], key)
    {
      var next := i + 1;
      GroupSnoc(xs, i, next, key);
      var k := key(xs[i]);
      if k.Some? {
        var members := if k.value in groups then groups[k.value] else [];
        groups := groups[k.value := members + [xs[i]]];
      }
      i := next;
    }
    assert xs[..i] == xs;
  }

  /** A key has a group exactly when some element has it; the group holds
      two or more elements exactly when two different positions have it. */
  lemma GroupMembers<T(!new), K(!new)>(xs: seq<T>, key: T -> Option<K>, k: K)
    ensures k in Group(xs, key) <==> exists i :: 0 <= i < |xs| && key(xs[i]) == Some(k)
    ensures k in Group(xs, key) ==>
      (|Group(xs, key)[k]| >= 2 <==> exists i, j :: 0 <= i < j < |xs| && key(xs[i]) == Some(k) && key(xs[j]) == Some(k))
  {
    if exists i :: 0 <= i < |xs| && key(xs[i]) == Some(k) {
      var i :| 0 <= i < |xs| && key(xs[i]) == Some(k);
      assert k in Keys(xs, key);
    }
    FilterTwo(xs, KeyIs(key, k));
  }

  // ----- Counting: a `defaultdict(int)` filled by a loop -----

  function HasKey<T, K>(key: T -> Option<K>): T -> bool {
    x => key(x).Some?
  }

  /** Each key to the number of elements that have it. */
  function Counts<T(!new), K(!new)>(xs: seq<T>, key: T -> Option<K>): map<K, nat> {
    map k | k in Group(xs, key) :: |Group(xs, key)[k]|
  }

  /** `counts[k]` of a `defaultdict(int)`: zero for a key never seen. */
  function CountOf<K>(c: map<K, nat>, k: K): nat {
    if k in c then c[k] else 0
  }

  /** One more element read by a counting loop. */
  lemma CountsSnoc<T(!new), K(!new)>(xs: seq<T>, x: T, key: T -> Option<K>)
    ensures key(x).None? ==> Counts(xs + [x], key) == Counts(xs, key)
    ensures key(x).Some? ==>
      Counts(xs + [x], key) == Counts(xs, key)[key(x).value := CountOf(Counts(xs, key), key(x).value) + 1]
  {
    var ys := xs + [x];
    assert ys[..|xs|] == xs && ys[..|xs| + 1] == ys;
    GroupSnoc(ys, |xs|, |xs| + 1, key);
    var g, g' := Group(xs, key), Group(ys, key);
    if key(x).Some? {
      var k := key(x).value;
      assert g' == g[k := (if k in g then g[k] else []) + [x]];
      assert Counts(xs, key) == Lengths(g);
      assert Counts(ys, key) == Lengths(g');
      LengthsAppend(g, k, x);
    } else {
      assert g' == g;
    }
  }

  /** The length of each list of a map. */
  ghost function Lengths<K, T>(g: map<K, seq<T>>): map<K, nat> {
    map k | k in g :: |g[k]|
  }

  /** Appending to one list adds one to its length. */
  lemma LengthsAppend<K, T>(g: map<K, seq<T>>, k: K, x: T)
    ensures Lengths(g[k := (if k in g then g[k] else []) + [x]]) == Lengths(g)[k := CountOf(Lengths(g), k) + 1]
  {
    var c, c' := Lengths(g), Lengths(g[k := (if k in g then g[k] else []) + [x]]);
    var h := c[k := CountOf(c, k) + 1];
    assert c'.Keys == h.Keys;
    forall k' | k' in c' ensures c'[k'] == h[k'] {
    }
  }

  /** `sum(d.values())`. */
  ghost function SumValues<K>(m: map<K, nat>): nat
    decreases |m|
  {
    if m == map[] then 0 else var k :| k in m; m[k] + SumValues(m - {k})
  }

  /** The sum can be taken starting from any key. */
  lemma {:induction false} SumValuesRemove<K>(m: map<K, nat>, k: K)
    requires k in m
    ensures SumValues(m) == m[k] + SumValues(m - {k})
    decreases |m|
  {
    var j :| j in m && SumValues(m) == m[j] + SumValues(m - {j});
    if j != k {
      SumValuesRemove(m - {j}, k);
      SumValuesRemove(m - {k}, j);
      assert (m - {j}) - {k} == (m - {k}) - {j};
    }
  }

  /** Counting one more occurrence of `k` adds one to the total. */
  lemma SumValuesBump<K>(c: map<K, nat>, k: K)
    ensures SumValues(c[k := CountOf(c, k) + 1]) == SumValues(c) + 1
  {
    var v := CountOf(c, k) + 1;
    SumValuesRemove(c[k := v], k);
    assert c[k := v] - {k} == c - {k};
    if k in c {
      SumValuesRemove(c, k);
    } else {
      assert c - {k} == c;
    }
  }

  lemma CountsEmpty<T(!new), K(!new)>(xs: seq<T>, key: T -> Option<K>)
    requires xs == []
    ensures Counts(xs, key) == map[]
  {
    assert Keys(xs, key) == {};
  }

  lemma CountsSumSnoc<T(!new), K(!new)>(xs: seq<T>, x: T, key: T -> Option<K>)
    requires SumValues(Counts(xs, key)) == |Filter(xs, HasKey(key))|
    ensures SumValues(Counts(xs + [x], key)) == |Filter(xs + [x], HasKey(key))|
  {
    var bump := if key(x).Some? then 1 else 0;
    assert SumValues(Counts(xs + [x], key)) == SumValues(Counts(xs, key)) + bump by {
      CountsSnoc(xs, x, key);
      if key(x).Some? {
        SumValuesBump(Counts(xs, key), key(x).value);
      }
    }
    assert |Filter(xs + [x], HasKey(key))| == |Filter(xs, HasKey(key))| + bump by {
      FilterAppend(xs, [x], HasKey(key));
      assert [x][1..] == [];
    }
  }

  /** The counts add up to the number of elements that have a key. */
  lemma {:induction false} CountsSum<T(!new), K(!new)>(xs: seq<T>, key: T -> Option<K>)
    ensures SumValues(Counts(xs, key)) == |Filter(xs, HasKey(key))|
    decreases |xs|
  {
    if xs == [] {
      CountsEmpty(xs, key);
    } else {
      var init, x := xs[..|xs| - 1], xs[|xs| - 1];
      assert xs == init + [x];
      CountsSum(init, key);
      CountsSumSnoc(init, x, key);
    }
  }

  /** Filtering twice, the second test implying the first, is filtering
      by the second. */
  lemma {:induction false} FilterFilter<T(!new)>(xs: seq<T>, p: T -> bool, q: T -> bool)
    requires forall x :: q(x) ==> p(x)
    ensures Filter(Filter(xs, p), q) == Filter(xs, q)
  {
    if xs != [] {
      FilterFilter(xs[1..], p, q);
      var head := if p(xs[0]) then [xs[0]] else [];
      FilterAppend(head, Filter(xs[1..], p), q);
      assert head == [] || head[1..] == [];
    }
  }

  /** The test "has a key that satisfies `ok`". */
  function KeyIn<T, K>(key: T -> Option<K>, ok: K -> bool): T -> bool {
    x => key(x).Some? && ok(key(x).value)
  }

  /** A key has a group exactly when the filter for it keeps something. */
  lemma InGroup<T(!new), K(!new)>(xs: seq<T>, key: T -> Option<K>, k: K)
    ensures k in Group(xs, key) <==> Filter(xs, KeyIs(key, k)) != []
  {
    GroupMembers(xs, key, k);
    FilterNonEmpty(xs, KeyIs(key, k));
  }

  /** Counting only the elements whose key satisfies `ok` gives the counts
      of those keys and no others. */
  lemma CountsOfFiltered<T(!new), K(!new)>(xs: seq<T>, key: T -> Option<K>, ok: K -> bool)
    ensures Counts(Filter(xs, KeyIn(key, ok)), key) ==
      map k | k in Counts(xs, key) && ok(k) :: Counts(xs, key)[k]
  {
    var ys := Filter(xs, KeyIn(key, ok));
    var c, d := Counts(xs, key), Counts(ys, key);
    var r := map k | k in c && ok(k) :: c[k];
    forall k ensures (k in d <==> k in r) && (k in d ==> d[k] == r[k]) {
      InGroup(xs, key, k);
      InGroup(ys, key, k);
      if ok(k) {
        FilterFilter(xs, KeyIn(key, ok), KeyIs(key, k));
      } else {
        FilterNonePass(ys, KeyIs(key, k));
      }
    }
    assert d == r;
  }

  /** The counts of the elements whose key satisfies `ok` add up to how
      many such elements there are. */
  lemma CountsSumKeyIn<T(!new), K(!new)>(xs: seq<T>, key: T -> Option<K>, ok: K -> bool)
    ensures SumValues(Counts(Filter(xs, KeyIn(key, ok)), key)) == |Filter(xs, KeyIn(key, ok))|
  {
    var ys := Filter(xs, KeyIn(key, ok));
    CountsSum(ys, key);
    forall i | 0 <= i < |ys| ensures HasKey(key)(ys[i]) {
      assert ys[i] in ys;
    }
    FilterAllPass(ys, HasKey(key));
  }

  // ----- Flattening: nested loops over lists of lists -----

  /** The lists of `xss` one after another. */
  function Flatten<T>(xss: seq<seq<T>>): seq<T> {
    if xss == [] then [] else Flatten(xss[..|xss| - 1]) + xss[|xss| - 1]
  }

  /** One more list read by the outer loop. */
  lemma FlattenSnoc<T>(xss: seq<seq<T>>, c: nat, next: nat)
    requires next == c + 1 <= |xss|
    ensures Flatten(xss[..next]) == Flatten(xss[..c]) + xss[c]
  {
    assert xss[..next][..c] == xss[..c];
  }

  function Sizes<T>(xss: seq<seq<T>>): (r: seq<int>)
    ensures |r| == |xss|
  {
    seq(|xss|, i requires 0 <= i < |xss| => |xss[i]|)
  }

  /** `sum(len(xs) for xs in xss)` counts every element once. */
  lemma {:induction false} SizesSum<T>(xss: seq<seq<T>>)
    ensures Sum(Sizes(xss)) == |Flatten(xss)|
    decreases |xss|
  {
    if xss != [] {
      var init := xss[..|xss| - 1];
      SizesSum(init);
      assert Sizes(xss) == Sizes(init) + [|xss[|xss| - 1]|];
      SumAppend(Sizes(init), [|xss[|xss| - 1]|]);
      assert [|xss[|xss| - 1]|][1..] == [];
    }
  }

  function FilterEach<T(!new)>(xss: seq<seq<T>>, p: T -> bool): (r: seq<seq<T>>)
    ensures |r| == |xss|
  {
    seq(|xss|, i requires 0 <= i < |xss| => Filter(xss[i], p))
  }

  /** Filtering each list and then flattening is filtering the whole. */
  lemma {:induction false} FilterFlatten<T(!new)>(xss: seq<seq<T>>, p: T -> bool)
    ensures Flatten(FilterEach(xss, p)) == Filter(Flatten(xss), p)
    decreases |xss|
  {
    if xss != [] {
      var init := xss[..|xss| - 1];
      FilterFlatten(init, p);
      assert FilterEach(xss, p)[..|xss| - 1] == FilterEach(init, p);
      FilterAppend(Flatten(init), xss[|xss| - 1], p);
    }
  }

  /** Filters that agree on every element keep the same elements. */
  lemma {:induction false} FilterExt<T(!new)>(xs: seq<T>, p: T -> bool, q: T -> bool)
    requires forall i :: 0 <= i < |xs| ==> p(xs[i]) == q(xs[i])
    ensures Filter(xs, p) == Filter(xs, q)
  {
    if xs != [] {
      FilterExt(xs[1..], p, q);
    }
  }

  /** The distinct elements of `xs` in order of first appearance: the keys
      of a dict filled from `xs`. Each element of `xs` occurs once. */
  function Distinct<T(==,!new)>(xs: seq<T>): (r: seq<T>)
    ensures forall x :: multiset(r)[x] == (if x in xs then 1 else 0)
  {
    if xs == [] then []
    else
      var init, x := xs[..|xs| - 1], xs[|xs| - 1];
      assert xs == init + [x];
      var d := Distinct(init);
      if x in d then d else d + [x]
  }

  // ----- Sorting by a key -----

  /** `le` orders keys totally: any two compare, and the order chains. */
  ghost predicate TotalPreorder<K(!new)>(le: (K, K) -> bool) {
    (forall a, b :: le(a, b) || le(b, a))
    && (forall a, b, c :: le(a, b) && le(b, c) ==> le(a, c))
  }

  function IntLe(a: int, b: int): bool {
    a <= b
  }

  lemma IntLeTotal()
    ensures TotalPreorder(IntLe)
  {
  }

  predicate SortedBy<T, K>(s: seq<T>, key: T -> K, le: (K, K) -> bool) {
    forall i, j :: 0 <= i < j < |s| ==> le(key(s[i]), key(s[j]))
  }

  predicate AllAtLeast<T, K>(s: seq<T>, key: T -> K, le: (K, K) -> bool, b: K) {
    forall i :: 0 <= i < |s| ==> le(b, key(s[i]))
  }

  /** Places `x` before the first element whose key it does not exceed, so
      that `x`, which came first, stays ahead of equal keys. */
  function InsertBy<T, K>(x: T, s: seq<T>, key: T -> K, le: (K, K) -> bool): (r: seq<T>)
    ensures |r| == |s| + 1
  {
    if s == [] then [x]
    else if le(key(x), key(s[0])) then [x] + s
    else [s[0]] + InsertBy(x, s[1..], key, le)
  }

  /** `sorted(s, key=key)` (and `list.sort`), as a stable insertion sort. */
  function SortBy<T, K>(s: seq<T>, key: T -> K, le: (K, K) -> bool): (r: seq<T>)
    ensures |r| == |s|
  {
    if s == [] then [] else InsertBy(s[0], SortBy(s[1..], key, le), key, le)
  }

  lemma SortedCons<T, K>(a: T, t: seq<T>, key: T -> K, le: (K, K) -> bool)
    ensures SortedBy([a] + t, key, le) <==> AllAtLeast(t, key, le, key(a)) && SortedBy(t, key, le)
  {
    var r := [a] + t;
    if AllAtLeast(t, key, le, key(a)) && SortedBy(t, key, le) {
      forall i, j | 0 <= i < j < |r| ensures le(key(r[i]), key(r[j])) {
        assert r[j] == t[j - 1];
        if i > 0 {
          assert r[i] == t[i - 1];
        } else {
          assert r[i] == a;
        }
      }
    }
    if SortedBy(r, key, le) {
      forall i | 0 <= i < |t| ensures le(key(a), key(t[i])) {
        assert r[0] == a && r[i + 1] == t[i];
        assert le(key(r[0]), key(r[i + 1]));
      }
      forall i, j | 0 <= i < j < |t| ensures le(key(t[i]), key(t[j])) {
        assert r[i + 1] == t[i] && r[j + 1] == t[j];
      }
    }
  }

  lemma {:induction false} InsertAtLeast<T, K>(x: T, s: seq<T>, key: T -> K, le: (K, K) -> bool, b: K)
    requires AllAtLeast(s, key, le, b) && le(b, key(x))
    ensures AllAtLeast(InsertBy(x, s, key, le), key, le, b)
  {
    if s != [] && !le(key(x), key(s[0])) {
      InsertAtLeast(x, s[1..], key, le, b);
      var r := InsertBy(x, s, key, le);
      forall i | 0 <= i < |r| ensures le(b, key(r[i])) {
        if i > 0 {
          assert r[i] == InsertBy(x, s[1..], key, le)[i - 1];
        }
      }
    } else if s != [] {
      var r := InsertBy(x, s, key, le);
      forall i | 0 <= i < |r| ensures le(b, key(r[i])) {
        if i > 0 {
          assert r[i] == s[i - 1];
        }
      }
    }
  }

  /** Inserting into a sorted list keeps it sorted. */
  lemma {:induction false} InsertSorted<T, K(!new)>(x: T, s: seq<T>, key: T -> K, le: (K, K) -> bool)
    requires TotalPreorder(le) && SortedBy(s, key, le)
    ensures SortedBy(InsertBy(x, s, key, le), key, le)
  {
    if s == [] {
    } else if le(key(x), key(s[0])) {
      assert s == [s[0]] + s[1..];
      SortedCons(s[0], s[1..], key, le);
      forall i | 0 <= i < |s| ensures le(key(x), key(s[i])) {
        if i > 0 {
          assert le(key(s[0]), key(s[i]));
        }
      }
      SortedCons(x, s, key, le);
    } else {
      assert s == [s[0]] + s[1..];
      SortedCons(s[0], s[1..], key, le);
      assert le(key(s[0]), key(x));
      InsertAtLeast(x, s[1..], key, le, key(s[0]));
      InsertSorted(x, s[1..], key, le);
      SortedCons(s[0], InsertBy(x, s[1..], key, le), key, le);
    }
  }

  /** Inserting adds exactly `x`. */
  lemma {:induction false} InsertPerm<T, K>(x: T, s: seq<T>, key: T -> K, le: (K, K) -> bool)
    ensures multiset(InsertBy(x, s, key, le)) == multiset(s) + multiset{x}
  {
    if s != [] && !le(key(x), key(s[0])) {
      InsertPerm(x, s[1..], key, le);
      assert s == [s[0]] + s[1..];
    }
  }

  /** The sort orders by key and keeps exactly the elements it was given. */
  lemma {:induction false} SortBySpec<T, K(!new)>(s: seq<T>, key: T -> K, le: (K, K) -> bool)
    requires TotalPreorder(le)
    ensures multiset(SortBy(s, key, le)) == multiset(s)
    ensures SortedBy(SortBy(s, key, le), key, le)
  {
    if s != [] {
      SortBySpec(s[1..], key, le);
      InsertSorted(s[0], SortBy(s[1..], key, le), key, le);
      InsertPerm(s[0], SortBy(s[1..], key, le), key, le);
      assert s == [s[0]] + s[1..];
    }
  }
}
