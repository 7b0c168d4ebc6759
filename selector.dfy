/**
 * The selector micro-syntax `tag#id.c1.c2`: the parse createElm performs
 * (src/init.ts:154-178) and the assembly emptyNodeAt performs (src/init.ts:98-115).
 */
module Selector {
  import opened Wrappers

  /** The three fragments createElm reads out of a selector. */
  datatype Parsed = Parsed(tag: string, id: Option<string>, cls: Option<string>)

  /** JavaScript's `s.indexOf(c, from)`: a negative start counts from 0, and -1 means "absent". */
  function IndexOf(s: string, c: char, from: int): (r: int)
    ensures r == -1 || ((if from < 0 then 0 else from) <= r < |s| && s[r] == c)
    ensures forall i :: (if from < 0 then 0 else from) <= i < |s| && (r == -1 || i < r) ==> s[i] != c
    decreases |s| - from
  {
    if from < 0 then IndexOf(s, c, 0)
    else if from >= |s| then -1
    else if s[from] == c then from
    else IndexOf(s, c, from + 1)
  }

  /** `s.replace(/a/g, b)` for single characters, and `s.split(a).join(b)`, which is the same. */
  function Replace(s: string, a: char, b: char): string {
    seq(|s|, i requires 0 <= i < |s| => if s[i] == a then b else s[i])
  }

  /** The selector parse of createElm, quirks included: the search for "." starts at the
      index of "#" even when that is -1, a "#" at index 0 counts as no "#", and a "." before
      the "#" stays in the tag. */
  function ParseSelector(sel: string): (p: Parsed)
    ensures p.tag <= sel
    ensures '#' !in sel && '.' !in sel ==> p.tag == sel
    ensures p.id.Some? ==> '.' !in p.id.value
    ensures p.cls.Some? ==> '.' !in p.cls.value
  {
    var hashIdx := IndexOf(sel, '#', 0);
    var dotIdx := IndexOf(sel, '.', hashIdx);
    var hash := if hashIdx > 0 then hashIdx else |sel|;
    var dot := if dotIdx > 0 then dotIdx else |sel|;
    var tag := if hashIdx != -1 || dotIdx != -1 then sel[..if hash < dot then hash else dot] else sel;
    var id := if hash < dot then Some(sel[hash + 1..dot]) else None;
    var cls := if dotIdx > 0 then Some(Replace(sel[dot + 1..], '.', ' ')) else None;
    Parsed(tag, id, cls)
  }

  /** The attributes createElm sets on a new element: `id`, then `class`. */
  function AttrsOf(p: Parsed): map<string, string> {
    var withId := if p.id.Some? then map["id" := p.id.value] else map[];
    if p.cls.Some? then withId["class" := p.cls.value] else withId
  }

  /** `s.toLowerCase()` on the ASCII letters, which are all an HTML tag name holds. */
  function LowerAscii(s: string): string {
    seq(|s|, i requires 0 <= i < |s| => if 'A' <= s[i] <= 'Z' then (s[i] as int + 32) as char else s[i])
  }

  /** The selector emptyNodeAt assembles for a live element from its (lower-cased) tag name,
      its `id` property and its `class` attribute. */
  function SelectorOf(tag: string, id: string, classes: Option<string>): string {
    tag + (if id != "" then "#" + id else "")
        + (if classes.Some? && classes.value != "" then "." + Replace(classes.value, ' ', '.') else "")
  }

  lemma {:induction false} ReplaceBack(s: string)
    requires '.' !in s
    ensures Replace(Replace(s, ' ', '.'), '.', ' ') == s
  {
    var t := Replace(s, ' ', '.');
    forall i | 0 <= i < |s| ensures Replace(t, '.', ' ')[i] == s[i] {
      assert s[i] != '.';
    }
  }

  lemma IndexOfIs(s: string, c: char, from: nat, k: int)
    requires k == -1 || (from <= k < |s| && s[k] == c)
    requires forall i :: from <= i < |s| && (k == -1 || i < k) ==> s[i] != c
    ensures IndexOf(s, c, from) == k
  {
  }

  /** The selector `tag#id.c1.c2` with at least the tag. */
  lemma ParseTagIdClasses(tag: string, id: string, c: string)
    requires tag != "" && '#' !in tag && '.' !in tag && '.' !in id && '#' !in c
    ensures ParseSelector(tag + "#" + id + "." + c) == Parsed(tag, Some(id), Some(Replace(c, '.', ' ')))
  {
    var sel := tag + "#" + id + "." + c;
    var d := |tag| + 1 + |id|;
    assert sel[..|tag|] == tag;
    assert sel[|tag|] == '#';
    assert sel[|tag| + 1..d] == id;
    assert sel[d] == '.';
    assert sel[d + 1..] == c;
    forall i | 0 <= i < |tag| ensures sel[i] != '#' {
      assert sel[i] == tag[i];
    }
    IndexOfIs(sel, '#', 0, |tag|);
    forall i | |tag| <= i < d ensures sel[i] != '.' {
      if i > |tag| {
        assert sel[i] == id[i - |tag| - 1];
      }
    }
    IndexOfIs(sel, '.', |tag|, d);
  }

  lemma ParseTagId(tag: string, id: string)
    requires tag != "" && '#' !in tag && '.' !in tag && '.' !in id
    ensures ParseSelector(tag + "#" + id) == Parsed(tag, Some(id), None)
  {
    var sel := tag + "#" + id;
    IndexOfIs(sel, '#', 0, |tag|);
    IndexOfIs(sel, '.', |tag|, -1);
    assert sel[..|tag|] == tag;
    assert sel[|tag| + 1..|sel|] == id;
  }

  lemma ParseTagClasses(tag: string, c: string)
    requires tag != "" && '#' !in tag && '.' !in tag && '#' !in c
    ensures ParseSelector(tag + "." + c) == Parsed(tag, None, Some(Replace(c, '.', ' ')))
  {
    var sel := tag + "." + c;
    IndexOfIs(sel, '#', 0, -1);
    IndexOfIs(sel, '.', 0, |tag|);
    assert sel[..|tag|] == tag;
    assert sel[|tag| + 1..] == c;
  }

  /** Parsing what emptyNodeAt assembles gives back its parts, as long as the tag is non-empty
      and holds neither marker, the id holds no ".", and the class list holds neither marker. */
  lemma {:induction false} ParseSelectorOf(tag: string, id: string, classes: Option<string>)
    requires tag != "" && '#' !in tag && '.' !in tag && '.' !in id
    requires classes.Some? ==> '#' !in classes.value && '.' !in classes.value
    ensures ParseSelector(SelectorOf(tag, id, classes)) ==
      Parsed(tag, if id != "" then Some(id) else None,
             if classes.Some? && classes.value != "" then classes else None)
  {
    if classes.Some? && classes.value != "" {
      var c := Replace(classes.value, ' ', '.');
      assert '#' !in c by {
        forall i | 0 <= i < |c| ensures c[i] != '#' {
          assert classes.value[i] != '#';
        }
      }
      ReplaceBack(classes.value);
      if id != "" {
        assert SelectorOf(tag, id, classes) == tag + "#" + id + "." + c;
        ParseTagIdClasses(tag, id, c);
      } else {
        assert SelectorOf(tag, id, classes) == tag + "." + c;
        ParseTagClasses(tag, c);
      }
    } else if id != "" {
      assert SelectorOf(tag, id, classes) == tag + "#" + id;
      ParseTagId(tag, id);
    } else {
      assert SelectorOf(tag, id, classes) == tag;
    }
  }

  /** The quirks kept from the source: a "." before the "#" stays in the tag, and a leading
      "#" is not an id marker, so it stays in the tag too. */
  lemma ParseQuirks()
    ensures ParseSelector("div.a#b") == Parsed("div.a", Some("b"), None)
    ensures ParseSelector("#x.c") == Parsed("#x", None, Some("c"))
  {
    var s1 := "div.a#b";
    IndexOfIs(s1, '#', 0, 5);
    IndexOfIs(s1, '.', 5, -1);
    assert s1[..5] == "div.a" && s1[6..7] == "b";
    var s2 := "#x.c";
    IndexOfIs(s2, '#', 0, 0);
    IndexOfIs(s2, '.', 0, 2);
    assert s2[..2] == "#x" && s2[3..] == "c";
    assert Replace("c", '.', ' ') == "c";
  }
}
