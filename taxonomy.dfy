/**
 * `TCPType`: the closed set of categories, their glyphs and display names,
 * and the two conversions into a category (from a `u32` and from a header
 * keyword).
 */
module Taxonomy {

  /** Rust's `u32`. */
  type u32 = n: int | 0 <= n < 0x1_0000_0000

  /** Declared in this order; `derive(Ord)` orders the variants the same way. */
  datatype Category = Abstract | Body | Creature | Food | Machine | Nature | Form | Storage | Weapon | Unknown

  /** The position of `c` in the declaration order. */
  function Index(c: Category): (n: nat)
    ensures n <= 9
    ensures n == 9 <==> c == Unknown
  {
    match c
    case Abstract => 0
    case Body => 1
    case Creature => 2
    case Food => 3
    case Machine => 4
    case Nature => 5
    case Form => 6
    case Storage => 7
    case Weapon => 8
    case Unknown => 9
  }

  /** Every category, in the order a `BTreeMap<TCPType, _>` visits its keys. */
  const All: seq<Category> := [Abstract, Body, Creature, Food, Machine, Nature, Form, Storage, Weapon, Unknown]

  /** `All` lists each category exactly once, at its own index. */
  lemma AllByIndex()
    ensures |All| == 10
    ensures forall i :: 0 <= i < |All| ==> Index(All[i]) == i
    ensures forall c: Category :: All[Index(c)] == c
  {
  }

  /** `Index` is the ordering of the categories, a strict total order. */
  lemma IndexInjective(c: Category, d: Category)
    ensures Index(c) == Index(d) <==> c == d
  {
  }

  /** `get_emoji`: the glyph shown in front of an item. */
  function Emoji(c: Category): string {
    match c
    case Abstract => "\U{1F3AD}"
    case Body => "\U{1F441}\U{FE0F}"
    case Creature => "\U{1F408}"
    case Food => "\U{1F336}"
    case Machine => "\U{2699}\U{FE0F}"
    case Nature => "\U{2601}\U{FE0F}"
    case Form => "\U{26AA}"
    case Storage => "\U{1F4E6}"
    case Weapon => "\U{1F5E1}\U{FE0F}"
    case Unknown => "\U{2753}"
  }

  /** Each glyph is non-empty, starts with a character that is not ASCII and contains no `/`. */
  lemma EmojiShape(c: Category)
    ensures |Emoji(c)| >= 1 && Emoji(c)[0] as int >= 0x80
    ensures '/' !in Emoji(c)
  {
  }

  /** No two categories share a glyph. */
  lemma EmojiInjective(c: Category, d: Category)
    requires Emoji(c) == Emoji(d)
    ensures c == d
  {
    assert Emoji(c)[0] == Emoji(d)[0];
  }

  /** `Display for TCPType`: the variant's name, capitalised. */
  function Name(c: Category): (n: string)
    ensures |n| >= 4 && 'A' <= n[0] <= 'Z'
  {
    match c
    case Abstract => "Abstract"
    case Body => "Body"
    case Creature => "Creature"
    case Food => "Food"
    case Machine => "Machine"
    case Nature => "Nature"
    case Form => "Form"
    case Storage => "Storage"
    case Weapon => "Weapon"
    case Unknown => "Unknown"
  }

  /** No two categories share a display name. */
  lemma NameInjective(c: Category, d: Category)
    requires Name(c) == Name(d)
    ensures c == d
  {
    assert Name(c)[..2] == Name(d)[..2];
  }

  /** `From<u32>`: 0 to 8 name the categories in declaration order, anything else is `Unknown`. */
  function FromIndex(n: u32): (c: Category)
    ensures n <= 8 ==> Index(c) == n
    ensures n > 8 ==> c == Unknown
  {
    match n
    case 0 => Abstract
    case 1 => Body
    case 2 => Creature
    case 3 => Food
    case 4 => Machine
    case 5 => Nature
    case 6 => Form
    case 7 => Storage
    case 8 => Weapon
    case _ => Unknown
  }

  /** Converting a category to its index and back gives the category again. */
  lemma FromIndexOfIndex(c: Category)
    ensures FromIndex(Index(c)) == c
  {
  }

  /** The nine header keywords, one per category other than `Unknown`, in declaration order. */
  const Keywords: seq<string> := ["abstract", "body", "creature", "food", "machine", "nature", "form", "storage", "weapon"]

  /** `From<&str>`: an exact, case-sensitive match against the nine keywords. */
  function FromKeyword(s: string): (c: Category)
    ensures c != Unknown <==> s in Keywords
    ensures c != Unknown ==> s == Keywords[Index(c)]
  {
    match s
    case "abstract" => Abstract
    case "body" => Body
    case "creature" => Creature
    case "food" => Food
    case "machine" => Machine
    case "nature" => Nature
    case "form" => Form
    case "storage" => Storage
    case "weapon" => Weapon
    case _ => Unknown
  }

  /**
   * The two conversions agree: the `i`-th keyword and the number `i` select
   * the same category, so every category other than `Unknown` has exactly
   * one keyword.
   */
  lemma FromKeywordAgreesWithFromIndex(i: nat)
    requires i < |Keywords|
    ensures FromKeyword(Keywords[i]) == FromIndex(i) != Unknown
  {
  }

  /** A header keyword is matched case-sensitively: the display name itself selects `Unknown`. */
  lemma FromKeywordIsCaseSensitive(c: Category)
    ensures FromKeyword(Name(c)) == Unknown
  {
    assert Name(c)[0] in "ABCDFMNSWU";
  }
}
