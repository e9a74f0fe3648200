/**
 * `TCP`, its rendering, and the generator `TCPList::gen`. The thread's
 * random number generator is replaced by its output: `rng(n)` is the `n`-th
 * `next_u32` drawn after `designer` (itself drawn beforehand by
 * `gen_bool(0.25)` and passed in). A panic of the source is an outcome of
 * the model.
 */
module Generator {

  import opened Wrappers
  import opened Text
  import opened Order
  import opened Taxonomy
  import opened Catalog

  /** `TCP`: one generated prompt. */
  datatype Tcp = Tcp(
    types: seq<(Category, string)>,
    conditions: seq<string>,
    modifiers: seq<string>,
    anomalies: seq<string>,
    designer: bool)

  // ---------------------------------------------------------------- Display

  /** One type as rendered: its category's glyph, then the item. */
  function Label(e: (Category, string)): string {
    Emoji(e.0) + e.1
  }

  function Labels(ts: seq<(Category, string)>): (r: seq<string>)
    ensures |r| == |ts|
    ensures forall i :: 0 <= i < |ts| ==> r[i] == Label(ts[i])
  {
    if ts == [] then [] else [Label(ts[0])] + Labels(ts[1..])
  }

  /** A titled section, written only when its list is non-empty. */
  function Section(title: string, xs: seq<string>): (r: string)
    ensures xs == [] ==> r == []
    ensures xs != [] ==> title <= r
  {
    if xs == [] then [] else title + Join(xs, ", ")
  }

  /** The category whose glyph starts with `ch`, if any. */
  function GlyphCategory(ch: char): (r: Option<Category>)
    ensures r.Some? ==> Emoji(r.value)[0] == ch
  {
    if ch == '\U{1F3AD}' then Some(Abstract)
    else if ch == '\U{1F441}' then Some(Body)
    else if ch == '\U{1F408}' then Some(Creature)
    else if ch == '\U{1F336}' then Some(Food)
    else if ch == '\U{2699}' then Some(Machine)
    else if ch == '\U{2601}' then Some(Nature)
    else if ch == '\U{26AA}' then Some(Form)
    else if ch == '\U{1F4E6}' then Some(Storage)
    else if ch == '\U{1F5E1}' then Some(Weapon)
    else if ch == '\U{2753}' then Some(Unknown)
    else None
  }

  /** Reads a rendered type back: the glyph selects the category, the rest is the item. */
  function ParseLabel(s: string): (r: Option<(Category, string)>)
    ensures r.Some? ==> Label(r.value) == s
  {
    if s == [] then None
    else match GlyphCategory(s[0])
      case None => None
      case Some(c) =>
        if Emoji(c) <= s then
          assert s == Emoji(c) + s[|Emoji(c)|..];
          Some((c, s[|Emoji(c)|..]))
        else None
  }

  /** Rendering a type loses nothing: it can be read back. */
  lemma ParseLabelOfLabel(e: (Category, string))
    ensures ParseLabel(Label(e)) == Some(e)
  {
    var s := Label(e);
    EmojiShape(e.0);
    GlyphOfEmoji(e.0);
    assert s[0] == Emoji(e.0)[0];
    assert Emoji(e.0) <= s;
    assert s[|Emoji(e.0)|..] == e.1;
  }

  /** The first character of a glyph tells its category. */
  lemma GlyphOfEmoji(c: Category)
    ensures |Emoji(c)| >= 1 && GlyphCategory(Emoji(c)[0]) == Some(c)
  {
    match c
    case Abstract =>
    case Body =>
    case Creature =>
    case Food =>
    case Machine =>
    case Nature =>
    case Form =>
    case Storage =>
    case Weapon =>
    case Unknown =>
  }

  /** `Display for TCP`. */
  function Render(t: Tcp): (r: string)
    ensures t.designer <==> |r| >= 9 && r[..9] == "designer "
  {
    var body := Join(Labels(t.types), "/")
      + Section(", conditions: ", t.conditions)
      + Section(", anomalies: ", t.anomalies)
      + Section(", modifiers: ", t.modifiers);
    BodyHead(t);
    var r := (if t.designer then "designer " else "") + body;
    assert t.designer ==> r[..9] == "designer ";
    assert !t.designer ==> r == body;
    r
  }

  /** Without the designer prefix, the rendering starts with a glyph or a comma, never with `d`. */
  lemma BodyHead(t: Tcp)
    ensures var body := Join(Labels(t.types), "/")
      + Section(", conditions: ", t.conditions)
      + Section(", anomalies: ", t.anomalies)
      + Section(", modifiers: ", t.modifiers);
      body == [] || body[0] != 'd'
  {
    var ls := Labels(t.types);
    if ls != [] {
      EmojiShape(t.types[0].0);
      JoinHead(ls, "/");
    } else if t.conditions != [] {
    } else if t.anomalies != [] {
    }
  }

  /** A join starts with the first character of its first piece. */
  lemma JoinHead(xs: seq<string>, sep: string)
    requires |xs| >= 1 && xs[0] != []
    ensures Join(xs, sep) != [] && Join(xs, sep)[0] == xs[0][0]
  {
  }

  /**
   * The types part of the rendering splits on `/` back into one rendered
   * type per entry, each of which reads back as that entry, as long as no
   * item contains a `/`.
   */
  lemma RenderTypesRoundTrip(ts: seq<(Category, string)>)
    requires |ts| >= 1
    requires forall i :: 0 <= i < |ts| ==> '/' !in ts[i].1
    ensures var parts := Split(Join(Labels(ts), "/"), '/');
      |parts| == |ts| && forall i :: 0 <= i < |ts| ==> ParseLabel(parts[i]) == Some(ts[i])
  {
    var ls := Labels(ts);
    forall i | 0 <= i < |ls| ensures '/' !in ls[i] {
      EmojiShape(ts[i].0);
    }
    SplitJoin(ls, '/');
    assert "/" == ['/'];
    forall i | 0 <= i < |ts| ensures ParseLabel(ls[i]) == Some(ts[i]) {
      ParseLabelOfLabel(ts[i]);
    }
  }

  /** The sections come in the fixed order conditions, anomalies, modifiers, each joined by `", "`. */
  lemma RenderExample()
    ensures Render(Tcp([(Food, "apple"), (Weapon, "sword")], ["wet", "old"], ["tiny"], ["glowing"], true))
      == "designer " + (((
           (Emoji(Food) + "apple") + "/" + (Emoji(Weapon) + "sword"))
         + (", conditions: " + ("wet" + ", " + "old")))
         + (", anomalies: " + "glowing"))
         + (", modifiers: " + "tiny")
  {
    LabelsPair((Food, "apple"), (Weapon, "sword"));
    JoinPair(Emoji(Food) + "apple", Emoji(Weapon) + "sword", "/");
    JoinPair("wet", "old", ", ");
  }

  lemma LabelsPair(a: (Category, string), b: (Category, string))
    ensures Labels([a, b]) == [Label(a), Label(b)]
  {
    assert [a, b][1..] == [b];
  }

  lemma JoinPair(a: string, b: string, sep: string)
    ensures Join([a, b], sep) == a + sep + b
  {
    assert [a, b][1..] == [b];
  }

  // ---------------------------------------------------------------- gen

  /** Why `gen` panics: no category at all, an exhausted list, or too few entries to sample. */
  datatype Panic = NoCategories | EmptyPool | TooFewToSample

  datatype Outcome = Generated(tcp: Tcp) | Panicked(reason: Panic)

  /** The keys of a `BTreeMap<TCPType, _>` in iteration order. */
  function Keys(types: map<Category, seq<string>>): (ks: seq<Category>)
    ensures forall k :: k in ks <==> k in types
    ensures |ks| == 0 <==> types == map[]
  {
    KeysFrom(types, 0)
  }

  /** `Keys` visits the categories in declaration order, each once. */
  lemma KeysOrdered(types: map<Category, seq<string>>)
    ensures forall i, j :: 0 <= i < j < |Keys(types)| ==> Index(Keys(types)[i]) < Index(Keys(types)[j])
  {
  }

  function KeysFrom(types: map<Category, seq<string>>, n: nat): (ks: seq<Category>)
    requires n <= |All|
    ensures forall k :: k in ks <==> k in types && Index(k) >= n
    ensures forall i, j :: 0 <= i < j < |ks| ==> Index(ks[i]) < Index(ks[j])
    ensures forall i :: 0 <= i < |ks| ==> Index(ks[i]) >= n
    decreases |All| - n
  {
    AllByIndex();
    if n == |All| then []
    else
      var rest := KeysFrom(types, n + 1);
      assert forall k :: Index(k) >= n ==> Index(k) == n || Index(k) >= n + 1;
      assert forall k :: Index(k) == n ==> k == All[n];
      if All[n] in types then [All[n]] + rest else rest
  }

  /** The `n`-th `next_u32` of the stream. */
  function Draw(rng: nat -> u32, n: nat): u32 {
    rng(n)
  }

  /** `iter().skip(draw as usize % len).next().unwrap()`: the key a draw selects. */
  function Skip(keys: seq<Category>, draw: u32): (k: Category)
    requires keys != []
    ensures k in keys
  {
    keys[Mod(draw, |keys|)]
  }

  /**
   * `a % n` on unsigned integers, by repeated subtraction; `ModIsRemainder`
   * shows it is the remainder.
   */
  function Mod(a: nat, n: nat): (r: nat)
    requires n > 0
    ensures r < n
    decreases a
  {
    if a < n then a else Mod(a - n, n)
  }

  lemma {:induction false} ModIsRemainder(a: nat, n: nat)
    requires n > 0
    ensures Mod(a, n) == a % n
  {
    if a >= n {
      ModIsRemainder(a - n, n);
      var q, r := (a - n) / n, (a - n) % n;
      assert a - n == q * n + r;
      assert (q + 1) * n == q * n + n;
      ModUnique(a, n, q + 1, r);
    }
  }

  lemma ModUnique(a: int, n: int, q: int, r: int)
    requires n > 0 && 0 <= r < n && a == q * n + r
    ensures a % n == r
  {
    var d := a / n - q;
    assert d * n == r - a % n;
    MulAtLeast(d, n);
    MulAtLeast(-d, n);
  }

  /** A positive multiple of `n` is at least `n`. */
  lemma MulAtLeast(d: int, n: int)
    requires n > 0
    ensures d >= 1 ==> d * n >= n
  {
  }

  /** `Vec::swap_remove`: the last element takes the place of the removed one. */
  function SwapRemove(s: seq<string>, i: nat): (r: seq<string>)
    requires i < |s|
    ensures |r| == |s| - 1
    ensures forall j :: 0 <= j < |r| && j != i ==> r[j] == s[j]
    ensures i < |r| ==> r[i] == s[|s| - 1]
    ensures multiset(r) + multiset{s[i]} == multiset(s)
  {
    var last := |s| - 1;
    if i == last then
      assert s == s[..i] + [s[i]];
      s[..i]
    else
      assert s == s[..i] + [s[i]] + s[i + 1..last] + [s[last]];
      s[..i] + [s[last]] + s[i + 1..last]
  }

  /** One round's test of a counter: the draw, taken modulo 100, exceeds the threshold. */
  function Hit(draw: u32, threshold: nat): (h: nat)
    ensures h <= 1
  {
    if draw % 100 > threshold then 1 else 0
  }

  /** The number of the first `rounds` rounds whose draw at `offset` exceeds `threshold` (out of 100). */
  function Hits(rng: nat -> u32, offset: nat, threshold: nat, rounds: nat): (n: nat)
    ensures n <= rounds
  {
    if rounds == 0 then 0
    else Hits(rng, offset, threshold, rounds - 1) + Hit(Draw(rng, 1 + 4 * (rounds - 1) + offset), threshold)
  }

  /** Round `r` of a counter tests the draw at `1 + 4r + offset`. */
  lemma HitsNext(rng: nat -> u32, offset: nat, threshold: nat, r: nat, at: nat)
    requires at == 1 + 4 * r + offset
    ensures Hits(rng, offset, threshold, r + 1) == Hits(rng, offset, threshold, r) + Hit(Draw(rng, at), threshold)
  {
  }

  /** Each round adds at most one to a counter. */
  lemma HitsStep(rng: nat -> u32, offset: nat, threshold: nat, rounds: nat)
    ensures Hits(rng, offset, threshold, rounds) <= Hits(rng, offset, threshold, rounds + 1) <= Hits(rng, offset, threshold, rounds) + 1
  {
  }

  /**
   * The four rounds of Mode B: round `r` draws `Draw(rng, 1 + 4r)` to `Draw(rng, 4 + 4r)`
   * for the type, condition, modifier and anomaly counters in that order.
   */
  method DrawCounts(rng: nat -> u32) returns (typeCount: nat, conditionCount: nat, modifierCount: nat, anomalyCount: nat)
    ensures typeCount == 1 + Hits(rng, 0, 86, 4)
    ensures conditionCount == Hits(rng, 1, 94, 4)
    ensures modifierCount == Hits(rng, 2, 86, 4)
    ensures anomalyCount == Hits(rng, 3, 76, 4)
    ensures 1 <= typeCount <= 5 && conditionCount <= 4 && modifierCount <= 4 && anomalyCount <= 4
  {
    typeCount, conditionCount, modifierCount, anomalyCount := 1, 0, 0, 0;
    var next := 1;
    for r := 0 to 4
      invariant next == 1 + 4 * r
      invariant typeCount == 1 + Hits(rng, 0, 86, r)
      invariant conditionCount == Hits(rng, 1, 94, r)
      invariant modifierCount == Hits(rng, 2, 86, r)
      invariant anomalyCount == Hits(rng, 3, 76, r)
    {
      HitsNext(rng, 0, 86, r, next);
      HitsNext(rng, 1, 94, r, next + 1);
      HitsNext(rng, 2, 86, r, next + 2);
      HitsNext(rng, 3, 76, r, next + 3);
      typeCount := typeCount + Hit(Draw(rng, next), 86);
      conditionCount := conditionCount + Hit(Draw(rng, next + 1), 94);
      modifierCount := modifierCount + Hit(Draw(rng, next + 2), 86);
      anomalyCount := anomalyCount + Hit(Draw(rng, next + 3), 76);
      next := next + 4;
    }
  }

  /** The items picked from category `k`, in the order they were picked. */
  function ItemsOf(picks: seq<(Category, string)>, k: Category): (r: seq<string>)
    ensures |r| <= |picks|
  {
    if picks == [] then []
    else
      var last := picks[|picks| - 1];
      var rest := ItemsOf(picks[..|picks| - 1], k);
      assert picks == picks[..|picks| - 1] + [last];
      rest + (if last.0 == k then [last.1] else [])
  }

  /** Picks that take no more of any item than the catalog holds never repeat a pair when the catalog has no duplicates. */
  lemma {:induction false} PicksDistinct(picks: seq<(Category, string)>, k: Category, list: seq<string>, x: string)
    requires NoDuplicates(list)
    requires multiset(ItemsOf(picks, k)) <= multiset(list)
    ensures multiset(picks)[(k, x)] <= 1
  {
    NoDuplicatesMultiplicity(list, x);
    ItemsOfMultiplicity(picks, k, x);
  }

  lemma {:induction false} ItemsOfMultiplicity(picks: seq<(Category, string)>, k: Category, x: string)
    ensures multiset(ItemsOf(picks, k))[x] == multiset(picks)[(k, x)]
  {
    if picks != [] {
      var init := picks[..|picks| - 1];
      assert picks == init + [picks[|picks| - 1]];
      ItemsOfMultiplicity(init, k, x);
    }
  }

  /** The categories of a sequence of picks. */
  function CategoriesOf(picks: seq<(Category, string)>): (r: seq<Category>)
    ensures |r| == |picks|
  {
    if picks == [] then [] else CategoriesOf(picks[..|picks| - 1]) + [picks[|picks| - 1].0]
  }

  lemma CategoriesOfAppend(picks: seq<(Category, string)>, e: (Category, string))
    ensures CategoriesOf(picks + [e]) == CategoriesOf(picks) + [e.0]
  {
    assert (picks + [e])[..|picks|] == picks;
  }

  /** The categories selected by the first `n` picks: pick `j` draws its category at `start + 2j`. */
  function Selected(keys: seq<Category>, rng: nat -> u32, start: nat, n: nat): (r: seq<Category>)
    requires keys != []
    ensures |r| == n
  {
    if n == 0 then [] else Selected(keys, rng, start, n - 1) + [Selection(keys, rng, start, n - 1)]
  }

  /** The category selected by pick `j`, whose draw is at `start + 2j`. */
  function Selection(keys: seq<Category>, rng: nat -> u32, start: nat, j: nat): (k: Category)
    requires keys != []
    ensures k in keys
  {
    Skip(keys, Draw(rng, start + 2 * j))
  }

  /** Every item of category `k` has been picked: its pool is empty. */
  ghost predicate Exhausted(types: map<Category, seq<string>>, picks: seq<(Category, string)>, k: Category) {
    k in types && multiset(ItemsOf(picks, k)) == multiset(types[k])
  }

  /** The type-picking loop of Mode B; `exhausted` reports the panic of `% list.len()` on an empty pool. */
  method PickTypes(types: map<Category, seq<string>>, keys: seq<Category>, rng: nat -> u32, start: nat, count: nat)
    returns (picks: seq<(Category, string)>, exhausted: bool)
    requires keys != [] && forall k :: k in keys ==> k in types
    ensures |picks| <= count
    ensures !exhausted ==> |picks| == count
    ensures exhausted ==> |picks| < count
    ensures CategoriesOf(picks) == Selected(keys, rng, start, |picks|)
    ensures forall k :: k in types ==> multiset(ItemsOf(picks, k)) <= multiset(types[k])
    ensures forall k :: k !in types ==> ItemsOf(picks, k) == []
    ensures exhausted ==> Exhausted(types, picks, Selection(keys, rng, start, |picks|))
  {
    var pools: map<Category, seq<string>> := map[];
    picks := [];
    exhausted := false;
    while |picks| < count && !exhausted
      invariant |picks| <= count
      invariant exhausted ==> |picks| < count
      invariant CategoriesOf(picks) == Selected(keys, rng, start, |picks|)
      invariant Pools(types, pools, picks)
      invariant exhausted ==> Exhausted(types, picks, Selection(keys, rng, start, |picks|))
      decreases count - |picks|, if exhausted then 0 else 1
    {
      pools, picks, exhausted := PickNext(types, keys, rng, start, pools, picks);
    }
    PoolsBound(types, pools, picks);
  }

  /**
   * One pass of the pick loop: select a category with one draw, take its
   * pool from `type_map` (`entry(k).or_insert_with(|| list.clone())`), and
   * `swap_remove` the entry a second draw selects; `exhausted` when that
   * pool is empty, where `% list.len()` panics.
   */
  method PickNext(types: map<Category, seq<string>>, keys: seq<Category>, rng: nat -> u32, start: nat,
                  pools0: map<Category, seq<string>>, picks0: seq<(Category, string)>)
    returns (pools: map<Category, seq<string>>, picks: seq<(Category, string)>, exhausted: bool)
    requires keys != [] && forall k :: k in keys ==> k in types
    requires CategoriesOf(picks0) == Selected(keys, rng, start, |picks0|) && Pools(types, pools0, picks0)
    ensures exhausted ==> picks == picks0 && Exhausted(types, picks, Selection(keys, rng, start, |picks|))
    ensures !exhausted ==> |picks| == |picks0| + 1
    ensures CategoriesOf(picks) == Selected(keys, rng, start, |picks|) && Pools(types, pools, picks)
  {
    pools, picks := pools0, picks0;
    var k := Selection(keys, rng, start, |picks|);
    if k !in pools {
      PoolsOpen(types, pools, picks, k);
      pools := pools[k := types[k]];
    }
    var pool := pools[k];
    if |pool| == 0 {
      assert PoolOf(types, pools, picks, k);
      assert multiset(pools[k]) + multiset(ItemsOf(picks, k)) == multiset(ItemsOf(picks, k));
      return pools, picks, true;
    }
    var index := Mod(Draw(rng, start + 2 * |picks| + 1), |pool|);
    PoolsTake(types, pools, picks, k, index);
    CategoriesOfAppend(picks, (k, pool[index]));
    pools := pools[k := SwapRemove(pool, index)];
    picks := picks + [(k, pool[index])];
    exhausted := false;
  }

  /**
   * The scratch pools of `type_map`: a category's pool, once cloned from the
   * catalog, holds exactly the catalog's items that have not been picked.
   */
  ghost predicate Pools(types: map<Category, seq<string>>, pools: map<Category, seq<string>>, picks: seq<(Category, string)>) {
    forall k :: PoolOf(types, pools, picks, k)
  }

  /** The pool of one category, if open, and the picks of it make up its catalog list; unopened, nothing was picked. */
  ghost predicate PoolOf(types: map<Category, seq<string>>, pools: map<Category, seq<string>>, picks: seq<(Category, string)>, k: Category) {
    && (k in pools ==> k in types && multiset(pools[k]) + multiset(ItemsOf(picks, k)) == multiset(types[k]))
    && (k !in pools ==> ItemsOf(picks, k) == [])
  }

  /** `or_insert_with(|| list.clone())`: a fresh pool is the whole catalog list. */
  lemma PoolsOpen(types: map<Category, seq<string>>, pools: map<Category, seq<string>>, picks: seq<(Category, string)>, k: Category)
    requires Pools(types, pools, picks) && k in types && k !in pools
    ensures Pools(types, pools[k := types[k]], picks)
  {
    var pools' := pools[k := types[k]];
    forall k' ensures PoolOf(types, pools', picks, k') {
      assert PoolOf(types, pools, picks, k');
    }
  }

  /** `swap_remove` on a pool moves the removed item into the picks. */
  lemma PoolsTake(types: map<Category, seq<string>>, pools: map<Category, seq<string>>, picks: seq<(Category, string)>,
                  k: Category, index: nat)
    requires Pools(types, pools, picks) && k in pools && index < |pools[k]|
    ensures Pools(types, pools[k := SwapRemove(pools[k], index)], picks + [(k, pools[k][index])])
  {
    PickStep(picks, k, pools[k][index]);
    PoolsUpdate(types, pools, picks, picks + [(k, pools[k][index])], k, pools[k][index], SwapRemove(pools[k], index));
  }

  /** Moving `x` from the pool of `k` into the picks of `k` keeps the pools in step with the catalog. */
  lemma PoolsUpdate(types: map<Category, seq<string>>, pools: map<Category, seq<string>>,
                    picks: seq<(Category, string)>, picks': seq<(Category, string)>,
                    k: Category, x: string, pool: seq<string>)
    requires Pools(types, pools, picks) && k in pools
    requires multiset(pool) + multiset{x} == multiset(pools[k])
    requires ItemsOf(picks', k) == ItemsOf(picks, k) + [x]
    requires forall k' :: k' != k ==> ItemsOf(picks', k') == ItemsOf(picks, k')
    ensures Pools(types, pools[k := pool], picks')
  {
    var pools' := pools[k := pool];
    forall k' ensures PoolOf(types, pools', picks', k') {
      assert PoolOf(types, pools, picks, k');
      if k' == k {
        var taken := multiset(ItemsOf(picks, k));
        calc {
          multiset(pool) + multiset(ItemsOf(picks', k));
          { assert multiset(ItemsOf(picks', k)) == taken + multiset{x}; }
          multiset(pool) + (taken + multiset{x});
          (multiset(pool) + multiset{x}) + taken;
          multiset(types[k]);
        }
      } else {
        assert ItemsOf(picks', k') == ItemsOf(picks, k');
      }
    }
  }

  /** What the pools say about the picks: never more of an item than the catalog holds. */
  lemma PoolsBound(types: map<Category, seq<string>>, pools: map<Category, seq<string>>, picks: seq<(Category, string)>)
    requires Pools(types, pools, picks)
    ensures forall k :: k in types ==> multiset(ItemsOf(picks, k)) <= multiset(types[k])
    ensures forall k :: k !in types ==> ItemsOf(picks, k) == []
  {
    forall k ensures k in types ==> multiset(ItemsOf(picks, k)) <= multiset(types[k]) {
      assert PoolOf(types, pools, picks, k);
    }
    forall k ensures k !in types ==> ItemsOf(picks, k) == [] {
      assert PoolOf(types, pools, picks, k);
    }
  }

  /** Appending a pick of `k` extends the items of `k` and leaves every other category alone. */
  lemma PickStep(picks: seq<(Category, string)>, k: Category, item: string)
    ensures ItemsOf(picks + [(k, item)], k) == ItemsOf(picks, k) + [item]
    ensures forall k' :: k' != k ==> ItemsOf(picks + [(k, item)], k') == ItemsOf(picks, k')
  {
    assert (picks + [(k, item)])[..|picks|] == picks;
  }

  /**
   * `rand::seq::sample_iter(rng, list, count)`: `count` entries of `list`
   * without replacement, or an error when `list` is shorter than `count`.
   * The choice of entries is a stand-in (draw modulo the remaining length,
   * then `swap_remove`); only the contract is claimed for the library.
   */
  method Sample(list: seq<string>, count: nat, rng: nat -> u32, start: nat) returns (r: Option<seq<string>>)
    ensures r.None? <==> |list| < count
    ensures r.Some? ==> |r.value| == count && multiset(r.value) <= multiset(list)
  {
    if |list| < count {
      return None;
    }
    var pool := list;
    var out := [];
    for i := 0 to count
      invariant |out| == i && |pool| == |list| - i
      invariant multiset(pool) + multiset(out) == multiset(list)
    {
      var index := Mod(Draw(rng, start + i), |pool|);
      out := out + [pool[index]];
      pool := SwapRemove(pool, index);
    }
    r := Some(out);
  }

  /** A sub-multiset of a sequence without duplicates has no duplicates either. */
  lemma SubMultisetNoDuplicates(a: seq<string>, b: seq<string>)
    requires NoDuplicates(b) && multiset(a) <= multiset(b)
    ensures NoDuplicates(a)
  {
    forall i, j | 0 <= i < j < |a| ensures a[i] != a[j] {
      if a[i] == a[j] {
        TwiceInMultiset(a, i, j);
        NoDuplicatesMultiplicity(b, a[i]);
      }
    }
  }

  /** When no catalog list repeats an item, Mode B never picks the same pair twice. */
  lemma PicksNoRepeat(types: map<Category, seq<string>>, picks: seq<(Category, string)>)
    requires forall k :: k in types ==> NoDuplicates(types[k])
    requires forall k :: k in types ==> multiset(ItemsOf(picks, k)) <= multiset(types[k])
    requires forall k :: k !in types ==> ItemsOf(picks, k) == []
    ensures forall i, j :: 0 <= i < j < |picks| ==> picks[i] != picks[j]
  {
    forall i, j | 0 <= i < j < |picks| ensures picks[i] != picks[j] {
      if picks[i] == picks[j] {
        var (k, x) := picks[i];
        TwiceInMultiset(picks, i, j);
        if k in types {
          PicksDistinct(picks, k, types[k], x);
        } else {
          ItemsOfMultiplicity(picks, k, x);
        }
      }
    }
  }

  /** Mode B's type picks start after the mode draw and the sixteen counter draws. */
  const PickStart: nat := 17

  /**
   * `TCPList::gen`. Draw 0 selects the mode. Mode A draws the category (1)
   * and the item (2). Mode B draws four rounds of counters (1 to 16), two
   * draws per type pick from `PickStart`, then the three samples.
   */
  method Generate(c: Catalog, designer: bool, rng: nat -> u32) returns (o: Outcome)
    ensures o == Panicked(NoCategories) <==> c.types == map[]
    ensures Draw(rng, 0) % 2 == 0 && c.types != map[] ==> SingleOutcome(c, designer, rng, o)
    ensures Draw(rng, 0) % 2 == 1 && c.types != map[] ==> MixedOutcome(c, designer, rng, o)
  {
    if c.types == map[] {
      // `% self.types.len()` divides by zero
      return Panicked(NoCategories);
    }
    if Draw(rng, 0) % 2 == 0 {
      o := GenerateSingle(c, designer, rng);
    } else {
      o := GenerateMixed(c, designer, rng);
    }
  }

  /**
   * What Mode A promises: one item of the category drawn from the keys,
   * nothing else, and a panic exactly when that category's list is empty.
   */
  ghost predicate SingleOutcome(c: Catalog, designer: bool, rng: nat -> u32, o: Outcome)
    requires c.types != map[]
  {
    var k := Skip(Keys(c.types), Draw(rng, 1));
    && (o.Generated? <==> c.types[k] != [])
    && (!o.Generated? ==> o == Panicked(EmptyPool))
    && (o.Generated? ==>
          && |o.tcp.types| == 1 && o.tcp.types[0].0 == k && o.tcp.types[0].1 in c.types[k]
          && o.tcp.conditions == [] && o.tcp.modifiers == [] && o.tcp.anomalies == []
          && o.tcp.designer == designer)
  }

  /**
   * What Mode B promises: the counts the four counters drew, categories in
   * the order they were drawn, never more copies of an item than its list
   * holds, an empty pool exactly when some category is selected more often
   * than its list has items, a short sample exactly when that does not
   * happen but a flat list is shorter than its count, and no panic at all
   * when every list is long enough.
   */
  ghost predicate MixedOutcome(c: Catalog, designer: bool, rng: nat -> u32, o: Outcome)
    requires c.types != map[]
  {
    var sel := MixedSelection(c, rng);
    && (o.Generated? ==> MixedTcp(c, designer, rng, o.tcp))
    && (o.Panicked? ==> o.reason == EmptyPool || o.reason == TooFewToSample)
    && (o == Panicked(EmptyPool) <==> OverDrawn(c.types, sel))
    && (o == Panicked(TooFewToSample) <==> !OverDrawn(c.types, sel) && ShortSample(c, rng))
    && ((forall k :: k in c.types ==> |c.types[k]| >= 5)
        && |c.conditions| >= 4 && |c.modifiers| >= 4 && |c.anomalies| >= 4
        ==> o.Generated?)
  }

  /**
   * A combination Mode B may produce: the counts the four counters drew,
   * categories in the order they were drawn, never more copies of an item
   * than its list holds, samples of the flat lists and the designer flag.
   */
  ghost predicate MixedTcp(c: Catalog, designer: bool, rng: nat -> u32, t: Tcp)
    requires c.types != map[]
  {
    && |t.types| == 1 + Hits(rng, 0, 86, 4)
    && |t.conditions| == Hits(rng, 1, 94, 4)
    && |t.modifiers| == Hits(rng, 2, 86, 4)
    && |t.anomalies| == Hits(rng, 3, 76, 4)
    && CategoriesOf(t.types) == Selected(Keys(c.types), rng, PickStart, |t.types|)
    && (forall k :: k in c.types ==> multiset(ItemsOf(t.types, k)) <= multiset(c.types[k]))
    && (forall k :: k !in c.types ==> ItemsOf(t.types, k) == [])
    && multiset(t.conditions) <= multiset(c.conditions)
    && multiset(t.modifiers) <= multiset(c.modifiers)
    && multiset(t.anomalies) <= multiset(c.anomalies)
    && t.designer == designer
  }

  /** Mode B ends in an empty pool exactly when some category is over-drawn. */
  lemma MixedEmptyPool(c: Catalog, designer: bool, rng: nat -> u32)
    requires c.types != map[] && OverDrawn(c.types, MixedSelection(c, rng))
    ensures MixedOutcome(c, designer, rng, Panicked(EmptyPool))
  {
    LongListsNotOverDrawn(c.types, MixedSelection(c, rng));
  }

  /** Mode B ends in a short sample when no category is over-drawn and some flat list is short. */
  lemma MixedTooFew(c: Catalog, designer: bool, rng: nat -> u32)
    requires c.types != map[] && !OverDrawn(c.types, MixedSelection(c, rng)) && ShortSample(c, rng)
    ensures MixedOutcome(c, designer, rng, Panicked(TooFewToSample))
  {
  }

  /** Mode B produces a combination when nothing is over-drawn or short. */
  lemma MixedGenerated(c: Catalog, designer: bool, rng: nat -> u32, t: Tcp)
    requires c.types != map[] && !OverDrawn(c.types, MixedSelection(c, rng)) && !ShortSample(c, rng)
    requires MixedTcp(c, designer, rng, t)
    ensures MixedOutcome(c, designer, rng, Generated(t))
  {
  }

  /** The categories Mode B's type picks select, as many as its first counter drew. */
  function MixedSelection(c: Catalog, rng: nat -> u32): (sel: seq<Category>)
    requires c.types != map[]
    ensures |sel| == 1 + Hits(rng, 0, 86, 4) <= 5
  {
    Selected(Keys(c.types), rng, PickStart, 1 + Hits(rng, 0, 86, 4))
  }

  /** Some category is selected more often than its list has items. */
  ghost predicate OverDrawn(types: map<Category, seq<string>>, sel: seq<Category>) {
    exists k :: k in types && multiset(sel)[k] > |types[k]|
  }

  /** Some flat list is shorter than the count its counter drew. */
  ghost predicate ShortSample(c: Catalog, rng: nat -> u32) {
    || |c.conditions| < Hits(rng, 1, 94, 4)
    || |c.modifiers| < Hits(rng, 2, 86, 4)
    || |c.anomalies| < Hits(rng, 3, 76, 4)
  }

  /** Mode A of `gen`: one type pair. */
  method GenerateSingle(c: Catalog, designer: bool, rng: nat -> u32) returns (o: Outcome)
    requires c.types != map[]
    ensures SingleOutcome(c, designer, rng, o)
  {
    var k := Skip(Keys(c.types), Draw(rng, 1));
    var list := c.types[k];
    if list == [] {
      // `choose(list).unwrap()` on an empty list
      return Panicked(EmptyPool);
    }
    // `random.choose(list)`: a stand-in selection
    var item := list[Mod(Draw(rng, 2), |list|)];
    o := Generated(Tcp([(k, item)], [], [], [], designer));
  }

  /** Mode B of `gen`: counted type picks and three samples. */
  method GenerateMixed(c: Catalog, designer: bool, rng: nat -> u32) returns (o: Outcome)
    requires c.types != map[]
    ensures MixedOutcome(c, designer, rng, o)
  {
    var keys := Keys(c.types);
    var typeCount, conditionCount, modifierCount, anomalyCount := DrawCounts(rng);
    var picks, exhausted := PickTypes(c.types, keys, rng, PickStart, typeCount);
    if exhausted {
      ExhaustedOverDraws(c.types, keys, rng, PickStart, picks, typeCount);
      MixedEmptyPool(c, designer, rng);
      return Panicked(EmptyPool);
    }
    o := SampleMixed(c, designer, rng, picks, conditionCount, modifierCount, anomalyCount);
  }

  /** The three samples of Mode B, after `picks` were drawn without running a pool empty. */
  method SampleMixed(c: Catalog, designer: bool, rng: nat -> u32, picks: seq<(Category, string)>,
                     conditionCount: nat, modifierCount: nat, anomalyCount: nat) returns (o: Outcome)
    requires c.types != map[]
    requires |picks| == 1 + Hits(rng, 0, 86, 4)
    requires conditionCount == Hits(rng, 1, 94, 4)
    requires modifierCount == Hits(rng, 2, 86, 4)
    requires anomalyCount == Hits(rng, 3, 76, 4)
    requires CategoriesOf(picks) == Selected(Keys(c.types), rng, PickStart, |picks|)
    requires forall k :: k in c.types ==> multiset(ItemsOf(picks, k)) <= multiset(c.types[k])
    requires forall k :: k !in c.types ==> ItemsOf(picks, k) == []
    ensures MixedOutcome(c, designer, rng, o)
  {
    PicksWithinLists(c.types, picks);
    var next := PickStart + 2 * |picks|;
    var conditions := Sample(c.conditions, conditionCount, rng, next);
    var modifiers := Sample(c.modifiers, modifierCount, rng, next + conditionCount);
    var anomalies := Sample(c.anomalies, anomalyCount, rng, next + conditionCount + modifierCount);
    if conditions.None? || modifiers.None? || anomalies.None? {
      // `sample_iter(..).unwrap()` on too short a list
      MixedTooFew(c, designer, rng);
      return Panicked(TooFewToSample);
    }
    o := Generated(Tcp(picks, conditions.value, modifiers.value, anomalies.value, designer));
    MixedGenerated(c, designer, rng, o.tcp);
  }

  /**
   * From a loaded catalog, Mode B never repeats a (category, item) pair and
   * each of its samples is free of duplicates.
   */
  lemma MixedDistinct(c: Catalog, designer: bool, rng: nat -> u32, o: Outcome)
    requires WellFormed(c) && c.types != map[]
    requires MixedOutcome(c, designer, rng, o) && o.Generated?
    ensures forall i, j :: 0 <= i < j < |o.tcp.types| ==> o.tcp.types[i] != o.tcp.types[j]
    ensures NoDuplicates(o.tcp.conditions) && NoDuplicates(o.tcp.modifiers) && NoDuplicates(o.tcp.anomalies)
  {
    forall k | k in c.types ensures NoDuplicates(c.types[k]) {
      StrictlyAscendingHasNoDuplicates(c.types[k]);
    }
    PicksNoRepeat(c.types, o.tcp.types);
    StrictlyAscendingHasNoDuplicates(c.conditions);
    StrictlyAscendingHasNoDuplicates(c.modifiers);
    StrictlyAscendingHasNoDuplicates(c.anomalies);
    SubMultisetNoDuplicates(o.tcp.conditions, c.conditions);
    SubMultisetNoDuplicates(o.tcp.modifiers, c.modifiers);
    SubMultisetNoDuplicates(o.tcp.anomalies, c.anomalies);
  }

  /** The picks whose category is `k` are as many as the occurrences of `k` among the picks' categories. */
  lemma {:induction false} CountOfCategory(picks: seq<(Category, string)>, k: Category)
    ensures |ItemsOf(picks, k)| == multiset(CategoriesOf(picks))[k]
  {
    if picks != [] {
      CountOfCategory(picks[..|picks| - 1], k);
    }
  }

  /** Selecting more picks only adds occurrences. */
  lemma SelectedGrows(keys: seq<Category>, rng: nat -> u32, start: nat, a: nat, b: nat, k: Category)
    requires keys != [] && a <= b
    ensures multiset(Selected(keys, rng, start, a))[k] <= multiset(Selected(keys, rng, start, b))[k]
  {
    var s := Selected(keys, rng, start, b);
    SelectedAt(keys, rng, start, a);
    SelectedAt(keys, rng, start, b);
    assert s[..a] == Selected(keys, rng, start, a);
    assert s == s[..a] + s[a..];
  }

  /** Position `j` of the selection is the category pick `j` selects. */
  lemma {:induction false} SelectedAt(keys: seq<Category>, rng: nat -> u32, start: nat, n: nat)
    requires keys != []
    ensures forall j :: 0 <= j < n ==> Selected(keys, rng, start, n)[j] == Selection(keys, rng, start, j)
  {
    if n > 0 {
      SelectedAt(keys, rng, start, n - 1);
    }
  }

  /** A sequence that is a sub-multiset of another is no longer. */
  lemma SubMultisetSize(a: seq<string>, b: seq<string>)
    requires multiset(a) <= multiset(b)
    ensures |a| <= |b|
  {
    var rest := multiset(b) - multiset(a);
    assert multiset(a) + rest == multiset(b);
    assert |multiset(b)| == |multiset(a)| + |rest|;
  }

  /** Picks within the lists select no category more often than its list has items. */
  lemma PicksWithinLists(types: map<Category, seq<string>>, picks: seq<(Category, string)>)
    requires forall k :: k in types ==> multiset(ItemsOf(picks, k)) <= multiset(types[k])
    ensures !OverDrawn(types, CategoriesOf(picks))
  {
    forall k | k in types
      ensures multiset(CategoriesOf(picks))[k] <= |types[k]|
    {
      CountOfCategory(picks, k);
      SubMultisetSize(ItemsOf(picks, k), types[k]);
    }
  }

  /**
   * A pool found empty at pick `|picks|` means the selection of the first
   * `n > |picks|` picks names that category more often than its list has items.
   */
  lemma ExhaustedOverDraws(types: map<Category, seq<string>>, keys: seq<Category>, rng: nat -> u32, start: nat,
                           picks: seq<(Category, string)>, n: nat)
    requires keys != [] && |picks| < n
    requires CategoriesOf(picks) == Selected(keys, rng, start, |picks|)
    requires Exhausted(types, picks, Selection(keys, rng, start, |picks|))
    ensures OverDrawn(types, Selected(keys, rng, start, n))
  {
    var j := |picks|;
    var k := Selection(keys, rng, start, j);
    CountOfCategory(picks, k);
    assert |multiset(ItemsOf(picks, k))| == |multiset(types[k])|;
    assert Selected(keys, rng, start, j + 1) == Selected(keys, rng, start, j) + [k];
    SelectedGrows(keys, rng, start, j + 1, n, k);
  }

  /** No category occurs in a sequence more often than the sequence is long. */
  lemma {:induction false} OccurrencesBound(s: seq<Category>, k: Category)
    ensures multiset(s)[k] <= |s|
  {
    if s != [] {
      OccurrencesBound(s[..|s| - 1], k);
      assert s == s[..|s| - 1] + [s[|s| - 1]];
    }
  }

  /** Lists of at least five items are never over-drawn by a selection of five or fewer. */
  lemma LongListsNotOverDrawn(types: map<Category, seq<string>>, sel: seq<Category>)
    ensures |sel| <= 5 && (forall k :: k in types ==> |types[k]| >= 5) ==> !OverDrawn(types, sel)
  {
    forall k | k in types
      ensures multiset(sel)[k] <= |sel|
    {
      OccurrencesBound(sel, k);
    }
  }
}
