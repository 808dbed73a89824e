/**
 * The fixed category tables of bankdownload.py and the Monzo category converter built on them:
 * a `#tag` word in the notes names a category and wins over the bank's own category column.
 */
module Categories {
  import opened PyCore

  /** The tag of a category: `'#'` followed by the lower-cased name with its whitespace removed. */
  function Tag(category: string): (tag: string)
    ensures |tag| >= 1 && tag[0] == '#'
  {
    "#" + Concat(Words(Lower(category)))
  }

  /** The categories of bankdownload.py, in the order the source lists them. */
  const CategoryList: seq<string> := [
    "Transfer", "Maintenance", "Groceries", "Cash", "Holiday", "Auto", "Energy", "Presents",
    "Gadgets", "Pastimes", "Entertainment", "Mobile", "Internet", "Water", "Charity", "Medical",
    "Transport", "Betting", "Official", "Clothing", "Homeware", "Biking", "Cleaning",
    "Council Tax", "Eating Out", "Home Insurance", "White Goods", "TV License"
  ]

  /**
   * The dictionary comprehension `{tag(c): c for c in names}`: a later name overwrites an
   * earlier one with the same tag, which cannot happen when the tags are distinct.
   */
  function TagTable(names: seq<string>): (m: map<string, string>)
    ensures m.Keys == set c | c in names :: Tag(c)
    ensures forall k :: k in m ==> m[k] in names && Tag(m[k]) == k
  {
    if names == [] then map[]
    else
      var last := names[|names| - 1];
      assert names == names[..|names| - 1] + [last];
      TagTable(names[..|names| - 1])[Tag(last) := last]
  }

  /** No two names share a tag. */
  ghost predicate DistinctTags(names: seq<string>) {
    forall i, j :: 0 <= i < j < |names| ==> Tag(names[i]) != Tag(names[j])
  }

  /** `CATEGORIES`: every category of the tag table mapped to itself, plus "Eating out". */
  function AliasTable(byTag: map<string, string>): (m: map<string, string>)
    ensures m.Keys == byTag.Values + {"Eating out"}
    ensures forall c :: c in byTag.Values && c != "Eating out" ==> m[c] == c
    ensures m["Eating out"] == "Eating Out"
  {
    (map c | c in byTag.Values :: c)["Eating out" := "Eating Out"]
  }

  /** `CATEGORIES_BY_TAG` */
  function CategoriesByTag(): map<string, string> {
    TagTable(CategoryList)
  }

  /** `CATEGORIES` */
  function Aliases(): map<string, string> {
    AliasTable(CategoriesByTag())
  }

  /** A notes word that names a known category: it starts with `#` and its lower-case form is a tag. */
  predicate IsKnownTag(byTag: map<string, string>, word: string) {
    StartsWith(word, "#") && Lower(word) in byTag
  }

  /** The comprehension over the notes words: the category of every known tag, in order. */
  function TaggedCategories(byTag: map<string, string>, words: seq<string>): (cs: seq<string>)
    ensures forall k :: 0 <= k < |cs| ==> cs[k] in byTag.Values
  {
    if words == [] then []
    else if IsKnownTag(byTag, words[0]) then [byTag[Lower(words[0])]] + TaggedCategories(byTag, words[1..])
    else TaggedCategories(byTag, words[1..])
  }

  /**
   * `convert_monzo_category(row)` over the tables `byTag` and `aliases`: the category of the
   * first known tag in the notes, else the alias of the category cell, else `None`. The category
   * cell is only read when no tag matched.
   */
  function MonzoCategory(byTag: map<string, string>, aliases: map<string, string>,
                         row: seq<string>, notesIndex: int, categoryIndex: int): (r: Result<Value>)
    ensures r.Ok? ==> r.value.None? || (r.value.Str? && r.value.s in byTag.Values + aliases.Values)
    ensures r.Err? ==> r.error == IndexError
    ensures Index(row, notesIndex).Err? ==> r == Err(IndexError)
    ensures r.Ok? <==> (Index(row, notesIndex).Ok?
      && (TaggedCategories(byTag, Words(Index(row, notesIndex).value)) != [] || Index(row, categoryIndex).Ok?))
  {
    var notes :- Index(row, notesIndex);
    var tagged := TaggedCategories(byTag, Words(notes));
    if tagged != [] then Ok(Str(tagged[0]))
    else
      var cell :- Index(row, categoryIndex);
      Ok(if cell in aliases then Str(aliases[cell]) else None)
  }

  // ----- lemmas -----

  lemma TagWithoutSpaces(category: string)
    ensures Tag(category) == "#" + RemoveSpaces(Lower(category))
  {
    ConcatWords(Lower(category));
  }

  /** With distinct tags every tag maps back to its own category, whatever the iteration order. */
  lemma {:induction false} TagTableMapsBack(names: seq<string>, i: nat)
    requires DistinctTags(names) && i < |names|
    ensures TagTable(names)[Tag(names[i])] == names[i]
  {
    var n := |names| - 1;
    if i < n {
      var init := names[..n];
      assert DistinctTags(init) by {
        forall a, b | 0 <= a < b < |init| ensures Tag(init[a]) != Tag(init[b]) {
          assert init[a] == names[a] && init[b] == names[b];
        }
      }
      assert init[i] == names[i];
      TagTableMapsBack(init, i);
      assert Tag(names[n]) != Tag(names[i]);
    }
  }

  /** With distinct tags every category is a key of the alias table and maps to itself. */
  lemma AliasesOfCategories(names: seq<string>, i: nat)
    requires DistinctTags(names) && i < |names|
    ensures names[i] in AliasTable(TagTable(names))
    ensures names[i] != "Eating out" ==> AliasTable(TagTable(names))[names[i]] == names[i]
  {
    TagTableMapsBack(names, i);
    assert names[i] in TagTable(names).Values;
  }

  /** The first category of the comprehension comes from the first known tag, left to right. */
  lemma {:induction false} FirstTaggedCategory(byTag: map<string, string>, words: seq<string>, i: nat)
    requires i < |words| && IsKnownTag(byTag, words[i])
    requires forall j :: 0 <= j < i ==> !IsKnownTag(byTag, words[j])
    ensures TaggedCategories(byTag, words) != []
    ensures TaggedCategories(byTag, words)[0] == byTag[Lower(words[i])]
  {
    if i > 0 {
      FirstTaggedCategory(byTag, words[1..], i - 1);
    }
  }

  lemma {:induction false} NoTaggedCategory(byTag: map<string, string>, words: seq<string>)
    requires forall j :: 0 <= j < |words| ==> !IsKnownTag(byTag, words[j])
    ensures TaggedCategories(byTag, words) == []
  {
    if words != [] {
      NoTaggedCategory(byTag, words[1..]);
    }
  }

  /** A known tag in the notes decides the category, whatever the category cell holds or whether it exists. */
  lemma MonzoTagWins(byTag: map<string, string>, aliases: map<string, string>,
                     row: seq<string>, notesIndex: int, categoryIndex: int, i: nat)
    requires Index(row, notesIndex).Ok?
    requires var words := Words(Index(row, notesIndex).value);
      i < |words| && IsKnownTag(byTag, words[i]) && forall j :: 0 <= j < i ==> !IsKnownTag(byTag, words[j])
    ensures MonzoCategory(byTag, aliases, row, notesIndex, categoryIndex)
         == Ok(Str(byTag[Lower(Words(Index(row, notesIndex).value)[i])]))
  {
    FirstTaggedCategory(byTag, Words(Index(row, notesIndex).value), i);
  }

  /** Without a known tag, the category cell is looked up case-sensitively among the aliases. */
  lemma MonzoFallback(byTag: map<string, string>, aliases: map<string, string>,
                      row: seq<string>, notesIndex: int, categoryIndex: int)
    requires Index(row, notesIndex).Ok?
    requires forall j :: 0 <= j < |Words(Index(row, notesIndex).value)| ==>
      !IsKnownTag(byTag, Words(Index(row, notesIndex).value)[j])
    ensures MonzoCategory(byTag, aliases, row, notesIndex, categoryIndex)
         == match Index(row, categoryIndex)
            case Err(e) => Err(e)
            case Ok(cell) => Ok(if cell in aliases then Str(aliases[cell]) else None)
  {
    NoTaggedCategory(byTag, Words(Index(row, notesIndex).value));
  }

  /** `Lower` character by character. */
  lemma LowerOf(c: string, l: string)
    requires |c| == |l| && forall k :: 0 <= k < |c| ==> LowerChar(c[k]) == l[k]
    ensures Lower(c) == l
  {
  }

  /** "eating out" with its whitespace removed. */
  lemma SpacesEatingOut(a: string, b: string)
    requires a == "eating" && b == "out"
    ensures RemoveSpaces(a + " " + b) == a + b
  {
    assert a + " " + b == a + (" " + b);
    RemoveSpacesAppend(a, " " + b);
    RemoveSpacesAppend(" ", b);
    RemoveSpacesOfWord(a);
    RemoveSpacesOfWord(b);
    assert RemoveSpaces(" ") == "";
  }

  /** The tag of "Eating Out" is `#eatingout`. */
  lemma EatingOutTag(c: string)
    requires c == "Eating Out"
    ensures Tag(c) == "#eatingout"
  {
    TagWithoutSpaces(c);
    LowerOf(c, "eating" + " " + "out");
    SpacesEatingOut("eating", "out");
  }

  /** A tag that no later name shares maps to its own name, whatever the earlier names are. */
  lemma {:induction false} TagTableLastWins(names: seq<string>, i: nat)
    requires i < |names|
    requires forall j :: i < j < |names| ==> Tag(names[j]) != Tag(names[i])
    ensures Tag(names[i]) in TagTable(names) && TagTable(names)[Tag(names[i])] == names[i]
  {
    var n := |names| - 1;
    if i < n {
      var init := names[..n];
      assert init[i] == names[i];
      forall j | i < j < |init| ensures Tag(init[j]) != Tag(init[i]) {
        assert init[j] == names[j];
      }
      TagTableLastWins(init, i);
    }
  }

  /** The two letters after `#` are the name's first two letters, lower-cased. */
  lemma TagStart(c: string)
    requires |c| >= 2 && !IsSpace(c[0]) && !IsSpace(c[1])
    ensures |Tag(c)| >= 3 && Tag(c)[1] == LowerChar(c[0]) && Tag(c)[2] == LowerChar(c[1])
  {
    TagWithoutSpaces(c);
    var l := Lower(c);
    assert l[0] == LowerChar(c[0]) && !IsSpace(l[0]);
    assert l[1] == LowerChar(c[1]) && !IsSpace(l[1]);
    assert l[1..][0] == l[1];
    assert RemoveSpaces(l) == [l[0]] + RemoveSpaces(l[1..]);
    assert RemoveSpaces(l[1..]) == [l[1]] + RemoveSpaces(l[2..]) by {
      assert l[1..][1..] == l[2..];
    }
  }

  /** A name whose tag cannot be `#eatingout`: it does not begin with "ea" in either case. */
  predicate NotEa(c: string) {
    |c| >= 2 && !IsSpace(c[0]) && !IsSpace(c[1]) && !(LowerChar(c[0]) == 'e' && LowerChar(c[1]) == 'a')
  }

  /**
   * In a list where no name but "Eating Out" begins with "ea" (see `CategoryListLayout`), no other
   * name has the tag `#eatingout`, so however the names are ordered it maps to "Eating Out".
   */
  lemma EatingOutCategory(names: seq<string>, i: nat)
    requires i < |names| && names[i] == "Eating Out"
    requires forall j :: 0 <= j < |names| && j != i ==> NotEa(names[j])
    ensures forall j :: 0 <= j < |names| && j != i ==> Tag(names[j]) != "#eatingout"
    ensures "#eatingout" in TagTable(names) && TagTable(names)["#eatingout"] == "Eating Out"
  {
    EatingOutTag(names[i]);
    forall j | 0 <= j < |names| && j != i ensures Tag(names[j]) != "#eatingout" {
      NotEaTag(names[j]);
    }
    TagTableLastWins(names, i);
  }

  lemma NotEaTag(c: string)
    requires NotEa(c)
    ensures Tag(c) != "#eatingout"
  {
    TagStart(c);
    var t := "#eatingout";
    assert t[1] == 'e' && t[2] == 'a';
  }

  /** "Eating Out" is the 25th category, and no other category begins with "ea". */
  lemma CategoryListLayout()
    ensures |CategoryList| == 28 && CategoryList[24] == "Eating Out"
    ensures forall j :: 0 <= j < |CategoryList| && j != 24 ==> NotEa(CategoryList[j])
  {
  }
}
