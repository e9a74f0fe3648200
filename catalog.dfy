/**
 * `TCPList` and its loader `TCPList::new`. The directory walk and the file
 * reads are replaced by their result: the lines of every file under
 * `types/`, file by file in walk order, and the lines of all files under
 * each of `conditions/`, `modifiers/` and `anomalies/`.
 */
module Catalog {

  import opened Wrappers
  import opened Text
  import opened Order
  import opened Taxonomy

  /**
   * `TCPList`. Each list is the iteration of a `BTreeSet<String>`, so it is
   * strictly ascending; `types` is a `BTreeMap`, visited in category order.
   */
  datatype Catalog = Catalog(
    types: map<Category, seq<string>>,
    conditions: seq<string>,
    modifiers: seq<string>,
    anomalies: seq<string>)

  /** A trimmed line that starts with `#` sets the current category. */
  predicate IsHeader(line: string) {
    line != [] && line[0] == '#'
  }

  /** Any other trimmed, non-empty line names an item. */
  predicate IsItem(line: string) {
    line != [] && line[0] != '#'
  }

  /** The category a header selects: its text after the `#`, untrimmed and case-sensitive. */
  function HeaderCategory(line: string): Category
    requires IsHeader(line)
  {
    FromKeyword(line[1..])
  }

  /**
   * The category in effect at line `i` of one file: the one selected by the
   * last header among the lines before it, or `Unknown` when there is none.
   */
  function CategoryAt(lines: seq<string>, i: nat): Category
    requires i <= |lines|
  {
    if i == 0 then Unknown
    else if IsHeader(Trim(lines[i - 1])) then HeaderCategory(Trim(lines[i - 1]))
    else CategoryAt(lines, i - 1)
  }

  /** The categories selected by the headers among the first `i` lines of one file. */
  function HeadersIn(lines: seq<string>, i: nat): set<Category>
    requires i <= |lines|
  {
    if i == 0 then {}
    else if IsHeader(Trim(lines[i - 1])) then HeadersIn(lines, i - 1) + {HeaderCategory(Trim(lines[i - 1]))}
    else HeadersIn(lines, i - 1)
  }

  /** The item lines among the first `i` lines of one file, each with the category in effect there. */
  function ItemsIn(lines: seq<string>, i: nat): seq<(Category, string)>
    requires i <= |lines|
  {
    if i == 0 then []
    else if IsItem(Trim(lines[i - 1])) then ItemsIn(lines, i - 1) + [(CategoryAt(lines, i - 1), Trim(lines[i - 1]))]
    else ItemsIn(lines, i - 1)
  }

  /** Every attribution of every file, files in walk order. */
  function Events(files: seq<seq<string>>): seq<(Category, string)> {
    if files == [] then []
    else
      var last := files[|files| - 1];
      Events(files[..|files| - 1]) + ItemsIn(last, |last|)
  }

  /** The categories selected by some header in some file. */
  function Headers(files: seq<seq<string>>): set<Category> {
    if files == [] then {}
    else
      var last := files[|files| - 1];
      Headers(files[..|files| - 1]) + HeadersIn(last, |last|)
  }

  /** The category of the first attribution of `x`; later ones are dropped by the loader. */
  function FirstCategory(events: seq<(Category, string)>, x: string): Option<Category> {
    if events == [] then None
    else if events[0].1 == x then Some(events[0].0)
    else FirstCategory(events[1..], x)
  }

  /** The distinct trimmed, non-empty lines of a flat list. */
  function Entries(lines: seq<string>): set<string> {
    set l | l in lines && Trim(l) != [] :: Trim(l)
  }

  /** Each list of `types` holds exactly the items whose first attribution names its category. */
  ghost predicate Grouped(types: map<Category, seq<string>>, events: seq<(Category, string)>) {
    && (forall k, x :: k in types ==> (x in types[k] <==> FirstCategory(events, x) == Some(k)))
    && (forall x :: FirstCategory(events, x).Some? ==> FirstCategory(events, x).value in types)
  }

  /** `list` is the iteration of the `BTreeSet` built from `lines`. */
  ghost predicate Collected(list: seq<string>, lines: seq<string>) {
    StrictlyAscending(list) && forall x :: x in list <==> x in Entries(lines)
  }

  /**
   * What `TCPList::new` produces from the given lines: every item is filed
   * under the category of its first occurrence; a category is present when a
   * header selected it, except `Unknown`, which is present exactly when some
   * item was filed under it; lists are in ascending order.
   */
  ghost predicate LoadedFrom(c: Catalog, typeFiles: seq<seq<string>>,
                             conditionLines: seq<string>, modifierLines: seq<string>, anomalyLines: seq<string>)
  {
    var events := Events(typeFiles);
    && Grouped(c.types, events)
    && (forall k :: k in c.types ==> StrictlyAscending(c.types[k]))
    && (forall k :: k != Unknown ==> (k in c.types <==> k in Headers(typeFiles)))
    && (Unknown in c.types <==> exists j :: 0 <= j < |events| && FirstCategory(events, events[j].1) == Some(Unknown))
    && Collected(c.conditions, conditionLines)
    && Collected(c.modifiers, modifierLines)
    && Collected(c.anomalies, anomalyLines)
  }

  /** The shape every loaded catalog has. */
  ghost predicate WellFormed(c: Catalog) {
    && Disjoint(c.types)
    && (forall k :: k in c.types ==> StrictlyAscending(c.types[k]))
    && ItemLists(c.types)
    && (Unknown in c.types ==> c.types[Unknown] != [])
    && StrictlyAscending(c.conditions) && StrictlyAscending(c.modifiers) && StrictlyAscending(c.anomalies)
    && (forall x :: x in c.conditions + c.modifiers + c.anomalies ==> x != [] && IsTrimmed(x))
  }

  /** No item is filed under two categories. */
  ghost predicate Disjoint(types: map<Category, seq<string>>) {
    forall k1, k2, x :: k1 in types && k2 in types && x in types[k1] && x in types[k2] ==> k1 == k2
  }

  /** Every filed item is a trimmed item line. */
  ghost predicate ItemLists(types: map<Category, seq<string>>) {
    forall k, x :: k in types && x in types[k] ==> IsItem(x) && IsTrimmed(x)
  }

  /** One directory of flat lines: trim, skip blank lines, collect into a `BTreeSet`. */
  method CollectLines(lines: seq<string>) returns (list: seq<string>)
    ensures StrictlyAscending(list)
    ensures forall x :: x in list <==> x in Entries(lines)
  {
    list := [];
    var i := 0;
    while i < |lines|
      invariant 0 <= i <= |lines|
      invariant StrictlyAscending(list)
      invariant forall x :: x in list <==> x in Entries(lines[..i])
    {
      EntriesAppend(lines, i);
      var line := Trim(lines[i]);
      if line != [] {
        list := SetInsert(list, line);
      }
      i := i + 1;
    }
    assert lines[..i] == lines;
  }

  /**
   * The loader's state part way through the walk: `types` and `seen` after
   * the attributions `events` and the headers `headers` seen so far.
   */
  ghost predicate LoaderState(types: map<Category, seq<string>>, seen: set<string>,
                              events: seq<(Category, string)>, headers: set<Category>)
  {
    && Unknown in types
    && types.Keys == {Unknown} + headers
    && (forall k :: k in types ==> StrictlyAscending(types[k]))
    && Grouped(types, events)
    && (forall x :: x in seen <==> FirstCategory(events, x).Some?)
  }

  /** `TCPList::new`. */
  method Load(typeFiles: seq<seq<string>>, conditionLines: seq<string>, modifierLines: seq<string>, anomalyLines: seq<string>)
    returns (c: Catalog)
    ensures LoadedFrom(c, typeFiles, conditionLines, modifierLines, anomalyLines)
  {
    var types: map<Category, seq<string>> := map[Unknown := []];
    var seen: set<string> := {};
    var f := 0;
    while f < |typeFiles|
      invariant 0 <= f <= |typeFiles|
      invariant LoaderState(types, seen, Events(typeFiles[..f]), Headers(typeFiles[..f]))
    {
      types, seen := LoadFile(typeFiles[f], types, seen, Events(typeFiles[..f]), Headers(typeFiles[..f]));
      assert typeFiles[..f + 1][..f] == typeFiles[..f];
      f := f + 1;
    }
    assert typeFiles[..f] == typeFiles;
    LoadedUnknown(types, Events(typeFiles));
    if types[Unknown] == [] {
      types := types - {Unknown};
    }
    var conditions := CollectLines(conditionLines);
    var modifiers := CollectLines(modifierLines);
    var anomalies := CollectLines(anomalyLines);
    c := Catalog(types, conditions, modifiers, anomalies);
  }

  /**
   * The body of the walk for one file under `types/`: the current category
   * starts as `Unknown`; each trimmed, non-blank line is a header or an item.
   */
  method LoadFile(lines: seq<string>, types0: map<Category, seq<string>>, seen0: set<string>,
                  ghost events: seq<(Category, string)>, ghost headers: set<Category>)
    returns (types: map<Category, seq<string>>, seen: set<string>)
    requires LoaderState(types0, seen0, events, headers)
    ensures LoaderState(types, seen, events + ItemsIn(lines, |lines|), headers + HeadersIn(lines, |lines|))
  {
    types, seen := types0, seen0;
    var current := Unknown;
    var i := 0;
    ghost var done := events;
    ghost var named := headers;
    assert events + ItemsIn(lines, 0) == events;
    while i < |lines|
      invariant 0 <= i <= |lines|
      invariant current == CategoryAt(lines, i) && current in types
      invariant done == events + ItemsIn(lines, i) && named == headers + HeadersIn(lines, i)
      invariant LoaderState(types, seen, done, named)
    {
      current, types, seen, done, named := LoadLine(lines, i, current, types, seen, done, named, events, headers);
      i := i + 1;
    }
  }

  /** Line `i` of a file under `types/`, trimmed: a header, a new item, a repeated item or a blank. */
  method LoadLine(lines: seq<string>, i: nat, current0: Category, types0: map<Category, seq<string>>, seen0: set<string>,
                  ghost done0: seq<(Category, string)>, ghost named0: set<Category>,
                  ghost events: seq<(Category, string)>, ghost headers: set<Category>)
    returns (current: Category, types: map<Category, seq<string>>, seen: set<string>,
             ghost done: seq<(Category, string)>, ghost named: set<Category>)
    requires i < |lines|
    requires current0 == CategoryAt(lines, i) && current0 in types0
    requires done0 == events + ItemsIn(lines, i) && named0 == headers + HeadersIn(lines, i)
    requires LoaderState(types0, seen0, done0, named0)
    ensures current == CategoryAt(lines, i + 1) && current in types
    ensures done == events + ItemsIn(lines, i + 1) && named == headers + HeadersIn(lines, i + 1)
    ensures LoaderState(types, seen, done, named)
  {
    LineStep(lines, i);
    current, types, seen, done, named := StoreLine(Trim(lines[i]), current0, types0, seen0, done0, named0);
    if IsItem(Trim(lines[i])) {
      assert (events + ItemsIn(lines, i)) + [(current0, Trim(lines[i]))] == events + (ItemsIn(lines, i) + [(current0, Trim(lines[i]))]);
    }
  }

  /** One trimmed line: a header, a new item, a repeated item or a blank. */
  method StoreLine(line: string, current0: Category, types0: map<Category, seq<string>>, seen0: set<string>,
                   ghost done0: seq<(Category, string)>, ghost named0: set<Category>)
    returns (current: Category, types: map<Category, seq<string>>, seen: set<string>,
             ghost done: seq<(Category, string)>, ghost named: set<Category>)
    requires LoaderState(types0, seen0, done0, named0) && current0 in types0
    ensures LoaderState(types, seen, done, named) && current in types
    ensures current == (if IsHeader(line) then HeaderCategory(line) else current0)
    ensures done == (if IsItem(line) then done0 + [(current0, line)] else done0)
    ensures named == (if IsHeader(line) then named0 + {HeaderCategory(line)} else named0)
  {
    current, types, seen, done, named := current0, types0, seen0, done0, named0;
    if IsHeader(line) {
      current := HeaderCategory(line);
      HeaderStep(types, seen, done, named, current);
      if current !in types {
        types := types[current := []];
      }
      named := named + {current};
    } else if IsItem(line) {
      if line !in seen {
        NewItemStep(types, seen, done, named, current, line);
        types := types[current := SetInsert(types[current], line)];
        seen := seen + {line};
      } else {
        RepeatStep(types, seen, done, named, current, line);
      }
      done := done + [(current, line)];
    }
  }

  /** How one more line extends the category in effect, the attributions and the headers of a file. */
  lemma LineStep(lines: seq<string>, i: nat)
    requires i < |lines|
    ensures var line := Trim(lines[i]);
      && CategoryAt(lines, i + 1) == (if IsHeader(line) then HeaderCategory(line) else CategoryAt(lines, i))
      && ItemsIn(lines, i + 1) == ItemsIn(lines, i) + (if IsItem(line) then [(CategoryAt(lines, i), line)] else [])
      && HeadersIn(lines, i + 1) == HeadersIn(lines, i) + (if IsHeader(line) then {HeaderCategory(line)} else {})
  {
  }

  /** A header selects a category, adding it, empty, if it is not yet present. */
  lemma HeaderStep(types: map<Category, seq<string>>, seen: set<string>,
                   events: seq<(Category, string)>, headers: set<Category>, k: Category)
    requires LoaderState(types, seen, events, headers)
    ensures LoaderState(if k in types then types else types[k := []], seen, events, headers + {k})
  {
    if k !in types {
      GroupedAddKey(types, events, k);
    }
  }

  /** The first appearance of an item files it under the current category. */
  lemma NewItemStep(types: map<Category, seq<string>>, seen: set<string>,
                    events: seq<(Category, string)>, headers: set<Category>, k: Category, line: string)
    requires LoaderState(types, seen, events, headers) && k in types && line !in seen
    ensures LoaderState(types[k := SetInsert(types[k], line)], seen + {line}, events + [(k, line)], headers)
  {
    GroupedInsert(types, events, k, line);
  }

  /** A repeated item changes nothing. */
  lemma RepeatStep(types: map<Category, seq<string>>, seen: set<string>,
                   events: seq<(Category, string)>, headers: set<Category>, k: Category, line: string)
    requires LoaderState(types, seen, events, headers) && line in seen
    ensures LoaderState(types, seen, events + [(k, line)], headers)
  {
    GroupedRepeat(types, events, k, line);
  }

  /** Extending a flat list by one line adds its trimmed form, unless it is blank. */
  lemma EntriesAppend(lines: seq<string>, i: nat)
    requires i < |lines|
    ensures Entries(lines[..i + 1]) == Entries(lines[..i]) + (if Trim(lines[i]) != [] then {Trim(lines[i])} else {})
  {
    assert lines[..i + 1] == lines[..i] + [lines[i]];
  }

  /** The first attribution of `x` after appending one more attribution. */
  lemma {:induction false} FirstCategoryAppend(events: seq<(Category, string)>, e: (Category, string), x: string)
    ensures FirstCategory(events + [e], x) ==
      if FirstCategory(events, x).Some? then FirstCategory(events, x)
      else if e.1 == x then Some(e.0) else None
  {
    if events != [] {
      assert (events + [e])[1..] == events[1..] + [e];
      FirstCategoryAppend(events[1..], e, x);
    }
  }

  /** `x` has a first attribution exactly when it is attributed somewhere, and that attribution occurs. */
  lemma {:induction false} FirstCategoryOccurs(events: seq<(Category, string)>, x: string)
    ensures FirstCategory(events, x).Some? <==> exists j :: 0 <= j < |events| && events[j].1 == x
    ensures FirstCategory(events, x).Some? ==>
      exists j :: 0 <= j < |events| && events[j] == (FirstCategory(events, x).value, x)
  {
    if events != [] {
      FirstCategoryOccurs(events[1..], x);
      if events[0].1 != x {
        forall j | 0 <= j < |events| && events[j].1 == x ensures 0 <= j - 1 < |events[1..]| && events[1..][j - 1].1 == x {
        }
      }
      if FirstCategory(events, x).Some? && events[0].1 != x {
        var j :| 0 <= j < |events[1..]| && events[1..][j] == (FirstCategory(events, x).value, x);
        assert events[j + 1] == events[1..][j];
      }
    }
  }

  /** A header that selects a category not yet present adds it, empty. */
  lemma GroupedAddKey(types: map<Category, seq<string>>, events: seq<(Category, string)>, k: Category)
    requires Grouped(types, events) && k !in types
    ensures Grouped(types[k := []], events)
  {
  }

  /** The first appearance of an item files it under the current category. */
  lemma GroupedInsert(types: map<Category, seq<string>>, events: seq<(Category, string)>, k: Category, line: string)
    requires Grouped(types, events) && k in types && StrictlyAscending(types[k])
    requires FirstCategory(events, line).None?
    ensures Grouped(types[k := SetInsert(types[k], line)], events + [(k, line)])
    ensures forall x :: FirstCategory(events + [(k, line)], x) == if x == line then Some(k) else FirstCategory(events, x)
  {
    var types' := types[k := SetInsert(types[k], line)];
    var events' := events + [(k, line)];
    forall x ensures FirstCategory(events', x) == if x == line then Some(k) else FirstCategory(events, x) {
      FirstCategoryAppend(events, (k, line), x);
    }
  }

  /** A repeated item changes nothing: its first attribution already exists. */
  lemma GroupedRepeat(types: map<Category, seq<string>>, events: seq<(Category, string)>, k: Category, line: string)
    requires Grouped(types, events)
    requires FirstCategory(events, line).Some?
    ensures Grouped(types, events + [(k, line)])
    ensures forall x :: FirstCategory(events + [(k, line)], x) == FirstCategory(events, x)
  {
    forall x ensures FirstCategory(events + [(k, line)], x) == FirstCategory(events, x) {
      FirstCategoryAppend(events, (k, line), x);
    }
  }

  /** The `Unknown` list is empty exactly when no item was first attributed to `Unknown`. */
  lemma LoadedUnknown(types: map<Category, seq<string>>, events: seq<(Category, string)>)
    requires Grouped(types, events) && Unknown in types
    ensures types[Unknown] != [] <==> exists j :: 0 <= j < |events| && FirstCategory(events, events[j].1) == Some(Unknown)
  {
    if types[Unknown] != [] {
      var x := types[Unknown][0];
      assert FirstCategory(events, x) == Some(Unknown);
      FirstCategoryOccurs(events, x);
      var j :| 0 <= j < |events| && events[j] == (Unknown, x);
      assert FirstCategory(events, events[j].1) == Some(Unknown);
    }
    if exists j :: 0 <= j < |events| && FirstCategory(events, events[j].1) == Some(Unknown) {
      var j :| 0 <= j < |events| && FirstCategory(events, events[j].1) == Some(Unknown);
      assert events[j].1 in types[Unknown];
    }
  }

  /** Every attribution names a trimmed item line, never a header. */
  ghost predicate ItemEvents(events: seq<(Category, string)>) {
    forall j :: 0 <= j < |events| ==> IsItem(events[j].1) && IsTrimmed(events[j].1)
  }

  lemma {:induction false} ItemsInShape(lines: seq<string>, i: nat)
    requires i <= |lines|
    ensures ItemEvents(ItemsIn(lines, i))
  {
    if i > 0 {
      ItemsInShape(lines, i - 1);
    }
  }

  lemma {:induction false} EventsShape(files: seq<seq<string>>)
    ensures ItemEvents(Events(files))
  {
    if files != [] {
      var last := files[|files| - 1];
      EventsShape(files[..|files| - 1]);
      ItemsInShape(last, |last|);
    }
  }

  /** Before the first header of a file, items are attributed to `Unknown`. */
  lemma {:induction false} CategoryAtBeforeHeaders(lines: seq<string>, i: nat)
    requires i <= |lines|
    requires forall k :: 0 <= k < i ==> !IsHeader(Trim(lines[k]))
    ensures CategoryAt(lines, i) == Unknown
  {
    if i > 0 {
      CategoryAtBeforeHeaders(lines, i - 1);
    }
  }

  /** After a header, and until the next one, the category is the one that header selects. */
  lemma {:induction false} CategoryAtLastHeader(lines: seq<string>, j: nat, i: nat)
    requires j < i <= |lines|
    requires IsHeader(Trim(lines[j]))
    requires forall k :: j < k < i ==> !IsHeader(Trim(lines[k]))
    ensures CategoryAt(lines, i) == HeaderCategory(Trim(lines[j]))
  {
    if i > j + 1 {
      CategoryAtLastHeader(lines, j, i - 1);
    }
  }

  /** Every item line before line `i` is attributed, with the category in effect at it. */
  lemma {:induction false} ItemsInComplete(lines: seq<string>, k: nat, i: nat)
    requires k < i <= |lines|
    requires IsItem(Trim(lines[k]))
    ensures (CategoryAt(lines, k), Trim(lines[k])) in ItemsIn(lines, i)
  {
    if i > k + 1 {
      ItemsInComplete(lines, k, i - 1);
    }
  }

  /** The attributions of one file are among those of the walk. */
  lemma {:induction false} EventsComplete(files: seq<seq<string>>, f: nat, e: (Category, string))
    requires f < |files|
    requires e in ItemsIn(files[f], |files[f]|)
    ensures e in Events(files)
  {
    if f < |files| - 1 {
      EventsComplete(files[..|files| - 1], f, e);
    }
  }

  /** A loaded catalog has the shape `WellFormed` describes. */
  lemma LoadedWellFormed(c: Catalog, typeFiles: seq<seq<string>>,
                         conditionLines: seq<string>, modifierLines: seq<string>, anomalyLines: seq<string>)
    requires LoadedFrom(c, typeFiles, conditionLines, modifierLines, anomalyLines)
    ensures WellFormed(c)
  {
    var events := Events(typeFiles);
    EventsShape(typeFiles);
    GroupedItems(c.types, events);
    GroupedDisjoint(c.types, events);
    if Unknown in c.types {
      GroupedUnknown(c.types, events);
    }
    CollectedShape(c.conditions, conditionLines);
    CollectedShape(c.modifiers, modifierLines);
    CollectedShape(c.anomalies, anomalyLines);
  }

  /** A collected flat list holds only non-empty trimmed entries. */
  lemma CollectedShape(list: seq<string>, lines: seq<string>)
    requires Collected(list, lines)
    ensures forall x :: x in list ==> x != [] && IsTrimmed(x)
  {
    forall x | x in list ensures x != [] && IsTrimmed(x) {
      assert x in Entries(lines);
    }
  }

  /** Grouping attributions of trimmed item lines files only trimmed item lines. */
  lemma GroupedItems(types: map<Category, seq<string>>, events: seq<(Category, string)>)
    requires Grouped(types, events) && ItemEvents(events)
    ensures ItemLists(types)
  {
    forall k, x | k in types && x in types[k] ensures IsItem(x) && IsTrimmed(x) {
      FirstCategoryOccurs(events, x);
    }
  }

  /** Grouping by first attribution files each item under one category only. */
  lemma GroupedDisjoint(types: map<Category, seq<string>>, events: seq<(Category, string)>)
    requires Grouped(types, events)
    ensures Disjoint(types)
  {
    forall k1, k2, x | k1 in types && k2 in types && x in types[k1] && x in types[k2] ensures k1 == k2 {
      assert FirstCategory(events, x) == Some(k1) && FirstCategory(events, x) == Some(k2);
    }
  }

  /** `Unknown` is only present with some item filed under it. */
  lemma GroupedUnknown(types: map<Category, seq<string>>, events: seq<(Category, string)>)
    requires Grouped(types, events) && Unknown in types
    requires exists j :: 0 <= j < |events| && FirstCategory(events, events[j].1) == Some(Unknown)
    ensures types[Unknown] != []
  {
    var j :| 0 <= j < |events| && FirstCategory(events, events[j].1) == Some(Unknown);
    assert events[j].1 in types[Unknown];
  }

  /** Every item line of every file is stored under some category. */
  lemma LoadedStoresEveryItem(c: Catalog, typeFiles: seq<seq<string>>,
                              conditionLines: seq<string>, modifierLines: seq<string>, anomalyLines: seq<string>,
                              f: nat, k: nat)
    requires LoadedFrom(c, typeFiles, conditionLines, modifierLines, anomalyLines)
    requires f < |typeFiles| && k < |typeFiles[f]| && IsItem(Trim(typeFiles[f][k]))
    ensures exists t :: t in c.types && Trim(typeFiles[f][k]) in c.types[t]
  {
    var events := Events(typeFiles);
    var x := Trim(typeFiles[f][k]);
    ItemsInComplete(typeFiles[f], k, |typeFiles[f]|);
    EventsComplete(typeFiles, f, (CategoryAt(typeFiles[f], k), x));
    var j :| 0 <= j < |events| && events[j] == (CategoryAt(typeFiles[f], k), x);
    FirstCategoryOccurs(events, x);
    var t := FirstCategory(events, x).value;
    assert x in c.types[t];
  }

  /** The loaded catalog is determined by the lines read. */
  lemma LoadedDeterministic(c1: Catalog, c2: Catalog, typeFiles: seq<seq<string>>,
                            conditionLines: seq<string>, modifierLines: seq<string>, anomalyLines: seq<string>)
    requires LoadedFrom(c1, typeFiles, conditionLines, modifierLines, anomalyLines)
    requires LoadedFrom(c2, typeFiles, conditionLines, modifierLines, anomalyLines)
    ensures c1 == c2
  {
    var events := Events(typeFiles);
    assert c1.types.Keys == c2.types.Keys by {
      forall k ensures k in c1.types <==> k in c2.types {
        if k == Unknown {
        }
      }
    }
    forall k | k in c1.types ensures c1.types[k] == c2.types[k] {
      assert forall y :: y in c1.types[k] <==> FirstCategory(events, y) == Some(k);
      assert forall y :: y in c2.types[k] <==> FirstCategory(events, y) == Some(k);
      StrictlyAscendingUnique(c1.types[k], c2.types[k]);
    }
    CollectedUnique(c1.conditions, c2.conditions, conditionLines, conditionLines);
    CollectedUnique(c1.modifiers, c2.modifiers, modifierLines, modifierLines);
    CollectedUnique(c1.anomalies, c2.anomalies, anomalyLines, anomalyLines);
  }

  /** A file of two lines: a header selecting `k`, then the item `x`. */
  ghost predicate OneItemFile(lines: seq<string>, x: string, k: Category) {
    && |lines| == 2
    && Trim(lines[0]) == lines[0] && IsHeader(lines[0]) && HeaderCategory(lines[0]) == k
    && lines[1] == x && Trim(x) == x && IsItem(x)
  }

  /**
   * The category lists depend on the order in which the directory walk
   * visits the type files: an item listed under two different headers in
   * two files is filed under the header of the file read first.
   */
  lemma LoadOrderMatters(c1: Catalog, c2: Catalog, first: seq<string>, second: seq<string>, x: string, k1: Category, k2: Category)
    requires OneItemFile(first, x, k1) && OneItemFile(second, x, k2) && k1 != k2
    requires LoadedFrom(c1, [first, second], [], [], [])
    requires LoadedFrom(c2, [second, first], [], [], [])
    ensures k1 in c1.types && c1.types[k1] == [x]
    ensures k2 in c2.types && c2.types[k2] == [x]
    ensures c1 != c2
  {
    FirstFileWins(c1, first, second, x, k1, k2);
    FirstFileWins(c2, second, first, x, k2, k1);
  }

  /** `#food` followed by `apple` is such a file. */
  lemma OneItemFileExample()
    ensures OneItemFile(["#food", "apple"], "apple", Food)
    ensures OneItemFile(["#weapon", "apple"], "apple", Weapon)
  {
    TrimOfTrimmed("#food");
    TrimOfTrimmed("#weapon");
    TrimOfTrimmed("apple");
    assert "#food"[1..] == Keywords[3] && "#weapon"[1..] == Keywords[8];
    FromKeywordAgreesWithFromIndex(3);
    FromKeywordAgreesWithFromIndex(8);
  }

  /** Of two one-item files holding the same item, the one read first decides where the item is filed. */
  lemma FirstFileWins(c: Catalog, first: seq<string>, second: seq<string>, x: string, k: Category, k2: Category)
    requires OneItemFile(first, x, k) && OneItemFile(second, x, k2)
    requires LoadedFrom(c, [first, second], [], [], [])
    ensures k in c.types && c.types[k] == [x]
    ensures forall j :: j in c.types && j != k ==> x !in c.types[j]
  {
    var events := Events([first, second]);
    TwoFilesEvents(first, second, x, k, k2);
    assert FirstCategory(events, x) == Some(k);
    FiledOnce(c.types, events, x, k);
    OnlyItem(c.types[k], events, x, k);
  }

  /** The attributions of two one-item files. */
  lemma TwoFilesEvents(first: seq<string>, second: seq<string>, x: string, k: Category, k2: Category)
    requires OneItemFile(first, x, k) && OneItemFile(second, x, k2)
    ensures Events([first, second]) == [(k, x), (k2, x)]
  {
    FileOfOneItem(first, x, k);
    FileOfOneItem(second, x, k2);
    assert [first, second][..1] == [first] && [first][..0] == [];
    assert Events([first]) == [(k, x)];
  }

  /** A one-item file attributes its item to its header's category. */
  lemma FileOfOneItem(lines: seq<string>, x: string, k: Category)
    requires OneItemFile(lines, x, k)
    ensures ItemsIn(lines, 2) == [(k, x)]
  {
    assert ItemsIn(lines, 1) == [];
    assert CategoryAt(lines, 1) == k;
  }

  /** An item with a first attribution is in no list but that category's. */
  lemma FiledOnce(types: map<Category, seq<string>>, events: seq<(Category, string)>, x: string, k: Category)
    requires Grouped(types, events) && FirstCategory(events, x) == Some(k)
    ensures k in types && x in types[k]
    ensures forall j :: j in types && j != k ==> x !in types[j]
  {
  }

  /** A list holding exactly the items first attributed to `k`, when that is `x` alone, is `[x]`. */
  lemma OnlyItem(list: seq<string>, events: seq<(Category, string)>, x: string, k: Category)
    requires |events| == 2 && events[0] == (k, x) && events[1].1 == x
    requires StrictlyAscending(list) && forall y :: y in list <==> FirstCategory(events, y) == Some(k)
    ensures list == [x]
  {
    forall y ensures y in list <==> y in [x] {
      if y != x {
        assert events[1..][1..] == [];
        assert FirstCategory(events[1..], y) == FirstCategory(events[1..][1..], y);
        assert FirstCategory(events, y) == None;
      }
    }
    StrictlyAscendingUnique(list, [x]);
  }

  /**
   * A flat list depends only on which lines were read, not on their order
   * or repetition: the same lines, in any file order, give the same list.
   */
  lemma CollectedUnique(a: seq<string>, b: seq<string>, linesA: seq<string>, linesB: seq<string>)
    requires Collected(a, linesA) && Collected(b, linesB)
    requires forall l :: l in linesA <==> l in linesB
    ensures a == b
  {
    assert Entries(linesA) == Entries(linesB);
    StrictlyAscendingUnique(a, b);
  }
}
