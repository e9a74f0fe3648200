/**
 * The string logic of the web front end: parsing a query string into a
 * descriptor, deriving the canonical file name of the composite base image,
 * and choosing between that image and the per-type fallbacks.
 */
module Web {

  import opened Wrappers
  import opened Text
  import opened Order

  /**
   * The `TCP` record as the web front end uses it: its types are plain
   * strings taken from the query.
   */
  datatype Descriptor = Descriptor(
    types: seq<string>,
    conditions: seq<string>,
    modifiers: seq<string>,
    anomalies: seq<string>,
    designer: bool)

  /** `TCP::default()`: every list empty, not a designer. */
  const Blank := Descriptor([], [], [], [], false)

  /** The name stored when a query names no type, or an empty first type. */
  const Typeless := "typeless"

  /** The four lists of a descriptor a query can extend. */
  datatype Field = Types | Conditions | Modifiers | Anomalies

  /** The descriptor's list for `f`. */
  function List(d: Descriptor, f: Field): seq<string> {
    match f
    case Types => d.types
    case Conditions => d.conditions
    case Modifiers => d.modifiers
    case Anomalies => d.anomalies
  }

  /** `d` with `xs` appended to its list for `f`. */
  function Extend(d: Descriptor, f: Field, xs: seq<string>): (r: Descriptor)
    ensures List(r, f) == List(d, f) + xs
    ensures forall g :: g != f ==> List(r, g) == List(d, g)
    ensures r.designer == d.designer
  {
    match f
    case Types => d.(types := d.types + xs)
    case Conditions => d.(conditions := d.conditions + xs)
    case Modifiers => d.(modifiers := d.modifiers + xs)
    case Anomalies => d.(anomalies := d.anomalies + xs)
  }

  /** What a lower-cased key asks for. */
  datatype Action = Append(field: Field) | SetDesigner | Ignore

  /** `match key.as_ref()`: the four list keys, `designer`, and anything else. */
  function ActionOf(key: string): (a: Action)
    ensures a == Append(Types) <==> key == "types"
    ensures a == Append(Anomalies) <==> key == "anomalies"
    ensures a == Append(Conditions) <==> key == "conditions"
    ensures a == Append(Modifiers) <==> key == "modifiers"
    ensures a == SetDesigner <==> key == "designer"
  {
    if key == "types" then Append(Types)
    else if key == "anomalies" then Append(Anomalies)
    else if key == "conditions" then Append(Conditions)
    else if key == "modifiers" then Append(Modifiers)
    else if key == "designer" then SetDesigner
    else Ignore
  }

  /** The key of an argument: the text before its first `=`, lower-cased. */
  function Key(arg: string): (k: string)
    ensures |k| <= |arg|
    ensures '=' !in arg[..|k|]
    ensures |k| == |arg| || arg[|k|] == '='
    ensures forall i :: 0 <= i < |k| ==> k[i] == LowerChar(arg[i])
  {
    Lower(SplitOnce(arg, '=').head)
  }

  /**
   * The values an argument carries: its text after the first `=`, split on
   * `,`; an argument without `=` carries none.
   */
  function Values(arg: string): (vs: seq<string>)
    ensures '=' !in arg ==> vs == []
    ensures '=' in arg ==> |vs| >= 1 && Join(vs, ",") == SplitOnce(arg, '=').tail.value
    ensures '=' in arg ==> forall i :: 0 <= i < |vs| ==> ',' !in vs[i]
  {
    var h := SplitOnce(arg, '=');
    if h.tail.Some? then
      JoinSplit(h.tail.value, ',');
      Split(h.tail.value, ',')
    else []
  }

  /** The effect of one decoded argument on the descriptor being built. */
  function ApplyArg(d: Descriptor, arg: string): (r: Descriptor)
    ensures ActionOf(Key(arg)) == Ignore ==> r == d
  {
    match ActionOf(Key(arg))
    case Append(f) => Extend(d, f, Values(arg))
    case SetDesigner => d.(designer := true)
    case Ignore => d
  }

  /** The arguments applied in order, the first one first. */
  function ApplyArgs(d: Descriptor, args: seq<string>): Descriptor {
    if args == [] then d
    else ApplyArg(ApplyArgs(d, args[..|args| - 1]), args[|args| - 1])
  }

  /** The arguments are applied left to right: the first `i + 1` are the first `i`, then argument `i`. */
  lemma ApplyArgsNext(d: Descriptor, args: seq<string>, i: nat)
    requires i < |args|
    ensures ApplyArgs(d, args[..i + 1]) == ApplyArg(ApplyArgs(d, args[..i]), args[i])
  {
    assert args[..i + 1][..i] == args[..i];
  }

  /** The arguments after percent-decoding; the decoder is a parameter. */
  function Decoded(parts: seq<string>, decode: string -> string): (r: seq<string>)
    ensures |r| == |parts|
    ensures forall i :: 0 <= i < |parts| ==> r[i] == decode(parts[i])
  {
    if parts == [] then []
    else Decoded(parts[..|parts| - 1], decode) + [decode(parts[|parts| - 1])]
  }

  /** A descriptor whose first type is missing or empty is given the single type `typeless`. */
  function Fallback(d: Descriptor): (r: Descriptor)
    ensures r.types != [] && r.types[0] != []
    ensures r.conditions == d.conditions && r.modifiers == d.modifiers
    ensures r.anomalies == d.anomalies && r.designer == d.designer
    ensures d.types != [] && d.types[0] != [] ==> r == d
    ensures d.types == [] || d.types[0] == [] ==> r.types == [Typeless]
  {
    if d.types == [] || d.types[0] == [] then d.(types := [Typeless]) else d
  }

  /** The descriptor a query string denotes. */
  function Parse(query: string, decode: string -> string): Descriptor {
    Fallback(ApplyArgs(Blank, Decoded(Split(query, '&'), decode)))
  }

  /** Parsing a query string, argument by argument, into a fresh descriptor. */
  method ParseQuery(query: string, decode: string -> string) returns (d: Descriptor)
    ensures d == Parse(query, decode)
    ensures d.types != [] && d.types[0] != []
  {
    var parts := Split(query, '&');
    ghost var args := Decoded(parts, decode);
    d := Blank;
    for i := 0 to |parts|
      invariant d == ApplyArgs(Blank, args[..i])
    {
      var arg := decode(parts[i]);
      ApplyArgsNext(Blank, args, i);
      d := ApplyArg(d, arg);
    }
    assert args[..|parts|] == args;
    if d.types == [] || d.types[0] == [] {
      d := d.(types := [Typeless]);
    }
  }

  /** All the values carried by the arguments whose key names list `f`, in argument order. */
  function ValuesFor(args: seq<string>, f: Field): (vs: seq<string>)
    ensures (forall i :: 0 <= i < |args| ==> ActionOf(Key(args[i])) != Append(f)) ==> vs == []
  {
    if args == [] then []
    else
      var last := args[|args| - 1];
      ValuesFor(args[..|args| - 1], f) + (if ActionOf(Key(last)) == Append(f) then Values(last) else [])
  }

  /** Some argument has the key `designer`. */
  predicate MentionsDesigner(args: seq<string>) {
    exists i :: 0 <= i < |args| && ActionOf(Key(args[i])) == SetDesigner
  }

  /**
   * Applying a sequence of arguments appends to each list the values of
   * every argument with that list's key, in order, so repeated keys
   * accumulate.
   */
  lemma {:induction false} ApplyArgsList(d: Descriptor, args: seq<string>, f: Field)
    ensures List(ApplyArgs(d, args), f) == List(d, f) + ValuesFor(args, f)
  {
    if args != [] {
      var init := args[..|args| - 1];
      var last := args[|args| - 1];
      ApplyArgsList(d, init, f);
      ApplyArgList(ApplyArgs(d, init), last, f);
    }
  }

  /** One argument appends its values to list `f` exactly when its key names `f`. */
  lemma ApplyArgList(d: Descriptor, arg: string, f: Field)
    ensures List(ApplyArg(d, arg), f) == List(d, f) + (if ActionOf(Key(arg)) == Append(f) then Values(arg) else [])
  {
  }

  /** The flag ends up set exactly when it was set already or some argument has the key `designer`. */
  lemma {:induction false} ApplyArgsDesigner(d: Descriptor, args: seq<string>)
    ensures ApplyArgs(d, args).designer <==> d.designer || MentionsDesigner(args)
  {
    if args != [] {
      var init := args[..|args| - 1];
      var last := args[|args| - 1];
      ApplyArgsDesigner(d, init);
      ApplyArgFlag(ApplyArgs(d, init), last);
      MentionsDesignerStep(args);
    }
  }

  /** One argument sets the flag exactly when its key is `designer`, and never clears it. */
  lemma ApplyArgFlag(d: Descriptor, arg: string)
    ensures ApplyArg(d, arg).designer <==> d.designer || ActionOf(Key(arg)) == SetDesigner
  {
  }

  lemma MentionsDesignerStep(args: seq<string>)
    requires args != []
    ensures MentionsDesigner(args) <==>
      MentionsDesigner(args[..|args| - 1]) || ActionOf(Key(args[|args| - 1])) == SetDesigner
  {
    var init := args[..|args| - 1];
    if MentionsDesigner(args) && ActionOf(Key(args[|args| - 1])) != SetDesigner {
      var i :| 0 <= i < |args| && ActionOf(Key(args[i])) == SetDesigner;
      assert init[i] == args[i];
    }
    if MentionsDesigner(init) {
      var i :| 0 <= i < |init| && ActionOf(Key(init[i])) == SetDesigner;
      assert args[i] == init[i];
    }
  }

  /** Applying `a` and then `b` is applying their concatenation. */
  lemma {:induction false} ApplyArgsAppend(d: Descriptor, a: seq<string>, b: seq<string>)
    ensures ApplyArgs(d, a + b) == ApplyArgs(ApplyArgs(d, a), b)
  {
    if b == [] {
      assert a + b == a;
    } else {
      var init := b[..|b| - 1];
      var last := b[|b| - 1];
      assert (a + b)[..|a + b| - 1] == a + init;
      assert (a + b)[|a + b| - 1] == last;
      ApplyArgsAppend(d, a, init);
    }
  }

  /** The descriptor a sequence of arguments builds from a blank one, field by field. */
  lemma BlankFields(args: seq<string>)
    ensures ApplyArgs(Blank, args) == Descriptor(
      ValuesFor(args, Types),
      ValuesFor(args, Conditions),
      ValuesFor(args, Modifiers),
      ValuesFor(args, Anomalies),
      MentionsDesigner(args))
  {
    ApplyArgsList(Blank, args, Types);
    ApplyArgsList(Blank, args, Conditions);
    ApplyArgsList(Blank, args, Modifiers);
    ApplyArgsList(Blank, args, Anomalies);
    ApplyArgsDesigner(Blank, args);
  }

  /** The parsed descriptor, field by field, in terms of the decoded arguments. */
  lemma ParseFields(query: string, decode: string -> string)
    ensures var args := Decoded(Split(query, '&'), decode);
      Parse(query, decode) == Fallback(Descriptor(
        ValuesFor(args, Types),
        ValuesFor(args, Conditions),
        ValuesFor(args, Modifiers),
        ValuesFor(args, Anomalies),
        MentionsDesigner(args)))
  {
    BlankFields(Decoded(Split(query, '&'), decode));
  }

  /** An argument without `=` appends nothing; only the key `designer` has an effect then. */
  lemma NoValueAppendsNothing(d: Descriptor, arg: string)
    requires '=' !in arg
    ensures ActionOf(Key(arg)) != SetDesigner ==> ApplyArg(d, arg) == d
  {
    if ActionOf(Key(arg)).Append? {
      var f := ActionOf(Key(arg)).field;
      assert List(ApplyArg(d, arg), f) == List(d, f);
    }
  }

  /** The key `designer` sets the flag whatever its value, with or without `=`, and touches nothing else. */
  lemma DesignerArg(d: Descriptor, arg: string)
    requires Key(arg) == "designer"
    ensures ApplyArg(d, arg) == d.(designer := true)
  {
  }

  /**
   * An argument `<head>=<value>` whose head lower-cases to a list key (in
   * any spelling: `TYPES`, `Types`, `types`) appends the comma-separated
   * pieces of `value` to that list and changes nothing else.
   */
  lemma ListArg(d: Descriptor, head: string, value: string, f: Field)
    requires '=' !in head && ActionOf(Lower(head)) == Append(f)
    ensures ApplyArg(d, head + "=" + value) == Extend(d, f, Split(value, ','))
  {
    var arg := head + "=" + value;
    HeadOf(head, value);
    assert Values(arg) == Split(value, ',');
  }

  /** Splitting `head + "=" + value` at the first `=`, when `head` has none. */
  lemma HeadOf(head: string, value: string)
    requires '=' !in head
    ensures SplitOnce(head + "=" + value, '=') == Halves(head, Some(value))
  {
    var s := head + "=" + value;
    assert s[|head|] == '=';
    assert s[..|head|] == head;
    assert s[|head| + 1..] == value;
  }

  /* ---------------------------------------------------------------- */

  /**
   * One attribute section of the file name: absent for an empty list,
   * otherwise `-<tag>_` and the list sorted, joined with `.` and then
   * lower-cased.
   */
  function Section(tag: char, xs: seq<string>): (r: string)
    ensures xs == [] <==> r == []
    ensures xs != [] ==> |r| >= 3 && r[..3] == ['-', tag, '_'] && r[3..] == Lower(Join(Sort(xs), "."))
  {
    if xs == [] then [] else ['-', tag, '_'] + Lower(Join(Sort(xs), "."))
  }

  /** The attribute sections, in the fixed order anomalies, conditions, modifiers. */
  function Attributes(d: Descriptor): string {
    Section('a', d.anomalies) + Section('c', d.conditions) + Section('m', d.modifiers)
  }

  /** The canonical file name of the composite base image of `d`. */
  function FileName(d: Descriptor): string {
    Join(Sort(d.types), ".") + Attributes(d) + ".png"
  }

  /**
   * Building the file name step by step: the sorted types joined with `.`,
   * then each non-empty attribute list as its section, then `.png`.
   */
  method AssetName(d: Descriptor) returns (filename: string)
    ensures filename == FileName(d)
  {
    var sortedTypes := Sort(d.types);
    filename := Join(sortedTypes, ".");
    ghost var prefix := filename;
    if d.anomalies != [] {
      var sortedAnomalies := Sort(d.anomalies);
      AppendSection(filename, 'a', d.anomalies);
      filename := filename + "-a_" + Lower(Join(sortedAnomalies, "."));
    }
    ghost var attrs := Section('a', d.anomalies);
    assert filename == prefix + attrs;
    if d.conditions != [] {
      var sortedConditions := Sort(d.conditions);
      AppendSection(filename, 'c', d.conditions);
      filename := filename + "-c_" + Lower(Join(sortedConditions, "."));
    }
    Associate(prefix, attrs, Section('c', d.conditions));
    attrs := attrs + Section('c', d.conditions);
    assert filename == prefix + attrs;
    if d.modifiers != [] {
      var sortedModifiers := Sort(d.modifiers);
      AppendSection(filename, 'm', d.modifiers);
      filename := filename + "-m_" + Lower(Join(sortedModifiers, "."));
    }
    Associate(prefix, attrs, Section('m', d.modifiers));
    attrs := attrs + Section('m', d.modifiers);
    assert filename == prefix + attrs;
    filename := filename + ".png";
  }

  /** Appending `-<tag>_` and the lower-cased join is appending the section. */
  lemma AppendSection(f: string, tag: char, xs: seq<string>)
    requires xs != []
    ensures f + ['-', tag, '_'] + Lower(Join(Sort(xs), ".")) == f + Section(tag, xs)
  {
    Associate(f, ['-', tag, '_'], Lower(Join(Sort(xs), ".")));
  }

  lemma Associate(a: string, b: string, c: string)
    ensures (a + b) + c == a + (b + c)
  {
  }

  /** The file name only depends on which items each list holds, not on their order. */
  lemma FileNamePermutationInvariant(d: Descriptor, e: Descriptor)
    requires multiset(d.types) == multiset(e.types)
    requires multiset(d.conditions) == multiset(e.conditions)
    requires multiset(d.modifiers) == multiset(e.modifiers)
    requires multiset(d.anomalies) == multiset(e.anomalies)
    ensures FileName(d) == FileName(e)
  {
    SortPermutationInvariant(d.types, e.types);
    SortPermutationInvariant(d.conditions, e.conditions);
    SortPermutationInvariant(d.modifiers, e.modifiers);
    SortPermutationInvariant(d.anomalies, e.anomalies);
  }

  /**
   * The file name opens with the types, sorted case-sensitively and joined
   * with `.` but not lower-cased, and ends in `.png`; with no attributes
   * there is nothing in between.
   */
  lemma FileNameShape(d: Descriptor)
    ensures var prefix := Join(Sort(d.types), ".");
      var name := FileName(d);
      && |name| >= |prefix| + 4
      && name[..|prefix|] == prefix
      && name[|name| - 4..] == ".png"
      && (d.anomalies == [] && d.conditions == [] && d.modifiers == [] ==> name == prefix + ".png")
  {
    var prefix := Join(Sort(d.types), ".");
    var attrs := Attributes(d);
    assert FileName(d) == prefix + (attrs + ".png");
  }

  /** Attribute sections appear exactly for the non-empty lists. */
  lemma AttributesEmpty(d: Descriptor)
    ensures Attributes(d) == [] <==> d.anomalies == [] && d.conditions == [] && d.modifiers == []
  {
  }

  /** An attribute section holds no ASCII capital, whatever its list holds. */
  lemma SectionLowerCase(tag: char, xs: seq<string>)
    requires !('A' <= tag <= 'Z')
    ensures forall i :: 0 <= i < |Section(tag, xs)| ==> !('A' <= Section(tag, xs)[i] <= 'Z')
  {
    var r := Section(tag, xs);
    if xs != [] {
      forall i | 0 <= i < |r| ensures !('A' <= r[i] <= 'Z') {
        if i >= 3 {
          assert r[i] == r[3..][i - 3];
        }
      }
    }
  }

  /**
   * Sorting comes before lower-casing: `B` sorts before `a`, so the
   * anomalies `a` and `B` give the section `-a_b.a`, not `-a_a.b`.
   */
  lemma SortBeforeLower()
    ensures Section('a', ["a", "B"]) == "-a_b.a"
  {
    var xs := ["a", "B"];
    assert Less("B", "a");
    assert Sorted(["B", "a"]);
    assert multiset(["B", "a"]) == multiset(xs);
    SortedUnique(Sort(xs), ["B", "a"]);
    assert Join(["B", "a"], ".") == "B.a";
  }

  /**
   * A worked example: the types stay as written and sorted (`A` before `b`),
   * the attributes are lower-cased, and the empty modifiers leave no section.
   */
  lemma FileNameExample()
    ensures FileName(Descriptor(["b", "A"], ["Wet"], [], ["X"], true))
      == ("A" + "." + "b") + (("-a_" + "x") + ("-c_" + "wet")) + ".png"
  {
    TypesExample();
    SectionExample('a', "X", "x");
    SectionExample('c', "Wet", "wet");
  }

  /** Types are sorted by code point, so `A` comes before `b`. */
  lemma TypesExample()
    ensures Join(Sort(["b", "A"]), ".") == "A" + "." + "b"
  {
    assert Less("A", "b");
    assert Sorted(["A", "b"]);
    assert multiset(["A", "b"]) == multiset(["b", "A"]);
    SortedUnique(Sort(["b", "A"]), ["A", "b"]);
  }

  /** A one-entry section is its tag and the lower-cased entry. */
  lemma SectionExample(tag: char, x: string, lower: string)
    requires Lower(x) == lower
    ensures Section(tag, [x]) == ['-', tag, '_'] + lower
  {
    SortOfSorted([x]);
  }

  /* ---------------------------------------------------------------- */

  /** What the page shows: the composite image, or its missing name and the per-type images that exist. */
  datatype View = Composite(src: string) | Missing(name: string, bases: seq<string>)

  /** The per-type image names `<t>.png`, in type order, whose files exist under `bases/`. */
  function ExistingBases(types: seq<string>, present: string -> bool): (r: seq<string>)
    ensures |r| <= |types|
    ensures forall i :: 0 <= i < |r| ==> present("bases/" + r[i])
  {
    if types == [] then []
    else
      var last := types[|types| - 1] + ".png";
      ExistingBases(types[..|types| - 1], present) + (if present("bases/" + last) then [last] else [])
  }

  /**
   * The image part of the page: the composite when `bases/<name>` exists
   * (with `?designer` appended for a designer), otherwise the fallbacks.
   */
  method Show(d: Descriptor, present: string -> bool) returns (v: View)
    ensures present("bases/" + FileName(d)) ==>
      v == Composite(if d.designer then FileName(d) + "?designer" else FileName(d))
    ensures !present("bases/" + FileName(d)) ==> v == Missing(FileName(d), ExistingBases(d.types, present))
  {
    var filename := AssetName(d);
    if present("bases/" + filename) {
      if d.designer {
        filename := filename + "?designer";
      }
      return Composite(filename);
    }
    var bases := Fallbacks(d.types, present);
    v := Missing(filename, bases);
  }

  /** The loop over the types that lists the per-type images that exist. */
  method Fallbacks(types: seq<string>, present: string -> bool) returns (bases: seq<string>)
    ensures bases == ExistingBases(types, present)
  {
    bases := [];
    for i := 0 to |types|
      invariant bases == ExistingBases(types[..i], present)
    {
      var name := types[i] + ".png";
      ExistingBasesNext(types, present, i);
      if present("bases/" + name) {
        bases := bases + [name];
      }
    }
    assert types[..|types|] == types;
  }

  /** The fallbacks of the first `i + 1` types are those of the first `i`, then type `i` if its image exists. */
  lemma ExistingBasesNext(types: seq<string>, present: string -> bool, i: nat)
    requires i < |types|
    ensures ExistingBases(types[..i + 1], present) == ExistingBases(types[..i], present)
      + (if present("bases/" + (types[i] + ".png")) then [types[i] + ".png"] else [])
  {
    assert types[..i + 1][..i] == types[..i];
  }

  /** Every fallback is `<t>.png` for some type `t`, and each existing one is listed. */
  lemma {:induction false} ExistingBasesComplete(types: seq<string>, present: string -> bool, t: string)
    ensures t + ".png" in ExistingBases(types, present) <== t in types && present("bases/" + (t + ".png"))
    ensures forall b :: b in ExistingBases(types, present) ==> exists u :: u in types && b == u + ".png"
  {
    if types != [] {
      var init := types[..|types| - 1];
      ExistingBasesComplete(init, present, t);
      if t in types && t !in init {
        assert t == types[|types| - 1];
      }
      forall b | b in ExistingBases(types, present) ensures exists u :: u in types && b == u + ".png" {
        if b in ExistingBases(init, present) {
          var u :| u in init && b == u + ".png";
          assert u in types;
        } else {
          assert types[|types| - 1] in types;
        }
      }
    }
  }
}
