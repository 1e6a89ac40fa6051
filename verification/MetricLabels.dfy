/** How a set of labels becomes the text that keys a series, and why no two sets share one. */
module MetricLabels {
  import opened Bytes
  import opened Order

  // ---- escaping -----------------------------------------------------------------------------------

  /** `s.replace(/c/g, with)`. */
  function Replace(s: string, c: char, with: string): string {
    if s == [] then [] else (if s[0] == c then with else [s[0]]) + Replace(s[1..], c, with)
  }

  /** Backslash first, then the quote, then the newline. */
  function EscapeLabelValue(value: string): string {
    Replace(Replace(Replace(value, '\\', "\\\\"), '"', "\\\""), '\n', "\\n")
  }

  function EscapeChar(c: char): string {
    if c == '\\' then "\\\\" else if c == '"' then "\\\"" else if c == '\n' then "\\n" else [c]
  }

  /** The same in one pass. */
  function Escape(value: string): string {
    if value == [] then [] else EscapeChar(value[0]) + Escape(value[1..])
  }

  lemma {:induction false} ReplaceConcat(a: string, b: string, c: char, with: string)
    ensures Replace(a + b, c, with) == Replace(a, c, with) + Replace(b, c, with)
  {
    if a == [] {
      assert a + b == b;
    } else {
      assert (a + b)[1..] == a[1..] + b;
      ReplaceConcat(a[1..], b, c, with);
    }
  }

  lemma ReplaceOne(x: char, c: char, with: string)
    ensures Replace([x], c, with) == if x == c then with else [x]
  {
    assert Replace([x], c, with) == (if x == c then with else [x]) + Replace([], c, with);
  }

  lemma ReplaceTwo(x: char, y: char, c: char, with: string)
    ensures Replace([x, y], c, with) == (if x == c then with else [x]) + (if y == c then with else [y])
  {
    ReplaceConcat([x], [y], c, with);
    ReplaceOne(x, c, with);
    ReplaceOne(y, c, with);
    assert [x] + [y] == [x, y];
  }

  lemma EscapeOneChar(c: char)
    ensures EscapeLabelValue([c]) == EscapeChar(c)
  {
    ReplaceOne(c, '\\', "\\\\");
    if c == '\\' {
      ReplaceTwo('\\', '\\', '"', "\\\"");
      ReplaceTwo('\\', '\\', '\n', "\\n");
    } else {
      ReplaceOne(c, '"', "\\\"");
      if c == '"' {
        ReplaceTwo('\\', '"', '\n', "\\n");
      } else {
        ReplaceOne(c, '\n', "\\n");
      }
    }
  }

  /** No later replacement touches what an earlier one wrote: the three passes are one. */
  lemma {:induction false} EscapeIsOnePass(value: string)
    ensures EscapeLabelValue(value) == Escape(value)
  {
    if value != [] {
      var first, rest := [value[0]], value[1..];
      assert value == first + rest;
      ReplaceConcat(first, rest, '\\', "\\\\");
      ReplaceConcat(Replace(first, '\\', "\\\\"), Replace(rest, '\\', "\\\\"), '"', "\\\"");
      ReplaceConcat(Replace(Replace(first, '\\', "\\\\"), '"', "\\\""), Replace(Replace(rest, '\\', "\\\\"), '"', "\\\""),
                    '\n', "\\n");
      EscapeOneChar(value[0]);
      EscapeIsOnePass(rest);
    }
  }

  /** Reading the escapes back; `None` for a text no value escapes to. */
  function Unescape(t: string): Option<string>
    decreases |t|
  {
    if t == [] then Some([])
    else if t[0] == '\\' then
      if |t| < 2 then None else Prepend(UnescapeChar(t[1]), Unescape(t[2..]))
    else
      Prepend(if t[0] == '"' || t[0] == '\n' then None else Some(t[0]), Unescape(t[1..]))
  }

  function UnescapeChar(c: char): Option<char> {
    if c == '\\' || c == '"' then Some(c) else if c == 'n' then Some('\n') else None
  }

  function Prepend(c: Option<char>, rest: Option<string>): Option<string> {
    if c.Some? && rest.Some? then Some([c.value] + rest.value) else None
  }

  lemma UnescapeOne(c: char, t: string)
    ensures Unescape(EscapeChar(c) + t) == Prepend(Some(c), Unescape(t))
  {
    var s := EscapeChar(c) + t;
    if |EscapeChar(c)| == 2 {
      assert s[0] == '\\' && s[1] == EscapeChar(c)[1] && s[2..] == t;
      assert UnescapeChar(s[1]) == Some(c);
    } else {
      assert s[0] == c && s[1..] == t;
    }
  }

  lemma {:induction false} UnescapeInverts(value: string)
    ensures Unescape(Escape(value)) == Some(value)
  {
    if value != [] {
      UnescapeInverts(value[1..]);
      UnescapeOne(value[0], Escape(value[1..]));
      hide Unescape, EscapeChar;
      assert value == [value[0]] + value[1..];
    }
  }

  /** Inside quotes the text neither ends the string nor the line: every quote is escaped and no newline is left. */
  predicate Quotable(t: string)
    decreases |t|
  {
    t == [] || (if t[0] == '\\' then |t| >= 2 && t[1] != '\n' && Quotable(t[2..])
                else t[0] != '"' && t[0] != '\n' && Quotable(t[1..]))
  }

  lemma {:induction false} EscapedIsQuotable(value: string)
    ensures Quotable(EscapeLabelValue(value)) && '\n' !in EscapeLabelValue(value)
  {
    EscapeIsOnePass(value);
    hide EscapeLabelValue;
    if value != [] {
      EscapeIsOnePass(value[1..]);
      EscapedIsQuotable(value[1..]);
      assert Escape(value)[|EscapeChar(value[0])|..] == Escape(value[1..]);
    }
  }

  lemma EscapeCharDecodes(a: char, b: char, x: string, y: string)
    requires EscapeChar(a) + x == EscapeChar(b) + y
    ensures a == b && x == y
  {
    var s, t := EscapeChar(a) + x, EscapeChar(b) + y;
    assert s[0] == t[0];
    if |s| > 1 {
      assert s[1] == t[1];
    }
    assert a == b;
    assert x == s[|EscapeChar(a)|..] && y == t[|EscapeChar(b)|..];
  }

  lemma EscapeUnfolds(v: string, x: string)
    requires v != []
    ensures Escape(v) + ['"'] + x == EscapeChar(v[0]) + (Escape(v[1..]) + ['"'] + x)
  {
  }

  lemma NoQuoteFirst(c: char, x: string)
    ensures (EscapeChar(c) + x)[0] != '"'
  {
  }

  /** An escaped value followed by its closing quote is read back in only one way, whatever follows. */
  lemma {:induction false} ValueDecodes(v: string, w: string, x: string, y: string)
    requires Escape(v) + ['"'] + x == Escape(w) + ['"'] + y
    ensures v == w && x == y
  {
    var s, t := Escape(v) + ['"'] + x, Escape(w) + ['"'] + y;
    if v == [] && w == [] {
      assert x == s[1..] && y == t[1..];
    } else if v == [] {
      EscapeUnfolds(w, y);
      NoQuoteFirst(w[0], Escape(w[1..]) + ['"'] + y);
    } else if w == [] {
      EscapeUnfolds(v, x);
      NoQuoteFirst(v[0], Escape(v[1..]) + ['"'] + x);
    } else {
      EscapeUnfolds(v, x);
      EscapeUnfolds(w, y);
      hide Escape, EscapeChar;
      EscapeCharDecodes(v[0], w[0], Escape(v[1..]) + ['"'] + x, Escape(w[1..]) + ['"'] + y);
      ValueDecodes(v[1..], w[1..], x, y);
      assert v == [v[0]] + v[1..] && w == [w[0]] + w[1..];
    }
  }

  // ---- label sets ---------------------------------------------------------------------------------

  datatype Label = Label(name: string, value: string)

  /** A label object: its entries in the order they were written. */
  type Labels = seq<Label>

  function Names(labels: Labels): seq<string> {
    seq(|labels|, i requires 0 <= i < |labels| => labels[i].name)
  }

  /** The value of a name, or the empty text where there is none. */
  function ValueOf(labels: Labels, name: string): string {
    if labels == [] then ""
    else if labels[0].name == name then labels[0].value
    else ValueOf(labels[1..], name)
  }

  /** Two objects with the same entries, whatever their order. */
  predicate SameLabels(a: Labels, b: Labels) {
    multiset(Names(a)) == multiset(Names(b)) && forall i :: 0 <= i < |a| ==> ValueOf(b, a[i].name) == ValueOf(a, a[i].name)
  }

  function Item(labels: Labels, name: string): string {
    name + "=\"" + EscapeLabelValue(ValueOf(labels, name)) + "\""
  }

  function JoinItems(labels: Labels, names: seq<string>): string {
    if names == [] then ""
    else if |names| == 1 then Item(labels, names[0])
    else Item(labels, names[0]) + "," + JoinItems(labels, names[1..])
  }

  function SerializeLabels(labels: Labels): string {
    var names := Sort(Names(labels));
    if names == [] then "" else "{" + JoinItems(labels, names) + "}"
  }

  // ---- no two label sets share a text -------------------------------------------------------------

  predicate IsName(name: string) {
    '=' !in name
  }

  lemma {:induction false} NameDecodes(k: string, l: string, x: string, y: string)
    requires IsName(k) && IsName(l) && k + ['='] + x == l + ['='] + y
    ensures k == l && x == y
  {
    var s, t := k + ['='] + x, l + ['='] + y;
    assert s[0] == t[0];
    if k == [] || l == [] {
      assert k == [] && l == [];
      assert x == s[1..] && y == t[1..];
    } else {
      assert s[1..] == k[1..] + ['='] + x && t[1..] == l[1..] + ['='] + y;
      NameDecodes(k[1..], l[1..], x, y);
      assert k == [k[0]] + k[1..] && l == [l[0]] + l[1..];
    }
  }

  lemma ItemUnfolds(labels: Labels, k: string, x: string)
    ensures Item(labels, k) + x == k + ['='] + (['"'] + (Escape(ValueOf(labels, k)) + ['"'] + x))
  {
    EscapeIsOnePass(ValueOf(labels, k));
    hide EscapeLabelValue, Escape, ValueOf;
  }

  lemma ItemDecodes(a: Labels, k: string, x: string, b: Labels, l: string, y: string)
    requires IsName(k) && IsName(l) && Item(a, k) + x == Item(b, l) + y
    ensures k == l && ValueOf(a, k) == ValueOf(b, l) && x == y
  {
    hide EscapeLabelValue, Escape, ValueOf, Item, IsName;
    ItemUnfolds(a, k, x);
    ItemUnfolds(b, l, y);
    var p, q := Escape(ValueOf(a, k)) + ['"'] + x, Escape(ValueOf(b, l)) + ['"'] + y;
    NameDecodes(k, l, ['"'] + p, ['"'] + q);
    assert p == (['"'] + p)[1..] && q == (['"'] + q)[1..];
    ValueDecodes(ValueOf(a, k), ValueOf(b, l), x, y);
  }

  function AfterFirst(labels: Labels, names: seq<string>): string
    requires names != []
  {
    if |names| == 1 then "}" else "," + (JoinItems(labels, names[1..]) + "}")
  }

  lemma JoinUnfolds(labels: Labels, names: seq<string>)
    requires names != []
    ensures JoinItems(labels, names) + "}" == Item(labels, names[0]) + AfterFirst(labels, names)
  {
    hide Item;
  }

  lemma CommaOrBrace(a: Labels, names: seq<string>, b: Labels, others: seq<string>)
    requires names != [] && others != [] && AfterFirst(a, names) == AfterFirst(b, others)
    ensures |names| == 1 <==> |others| == 1
    ensures |names| > 1 ==> JoinItems(a, names[1..]) + "}" == JoinItems(b, others[1..]) + "}"
  {
    hide JoinItems;
    assert AfterFirst(a, names)[0] == AfterFirst(b, others)[0];
    if |names| > 1 {
      assert AfterFirst(a, names)[1..] == JoinItems(a, names[1..]) + "}";
      assert AfterFirst(b, others)[1..] == JoinItems(b, others[1..]) + "}";
    }
  }

  /** The joined items end in a brace that no item contains unescaped, so the list itself is read back. */
  lemma {:induction false} JoinDecodes(a: Labels, names: seq<string>, b: Labels, others: seq<string>)
    requires names != [] && others != []
    requires forall n :: n in names || n in others ==> IsName(n)
    requires JoinItems(a, names) + "}" == JoinItems(b, others) + "}"
    ensures names == others && forall n :: n in names ==> ValueOf(a, n) == ValueOf(b, n)
    decreases |names|
  {
    hide Item, AfterFirst, JoinItems, ValueOf, IsName;
    JoinUnfolds(a, names);
    JoinUnfolds(b, others);
    assert names[0] in names && others[0] in others;
    ItemDecodes(a, names[0], AfterFirst(a, names), b, others[0], AfterFirst(b, others));
    CommaOrBrace(a, names, b, others);
    if |names| > 1 {
      JoinDecodes(a, names[1..], b, others[1..]);
    }
    assert names == [names[0]] + names[1..] && others == [others[0]] + others[1..];
  }

  lemma NamesAre(labels: Labels)
    ensures forall n :: n in Names(labels) <==> exists i :: 0 <= i < |labels| && labels[i].name == n
  {
    forall n ensures n in Names(labels) <==> exists i :: 0 <= i < |labels| && labels[i].name == n {
      if i :| 0 <= i < |labels| && labels[i].name == n {
        assert Names(labels)[i] == n;
      }
    }
  }

  lemma SortedNames(labels: Labels)
    ensures forall n :: n in Sort(Names(labels)) <==> exists i :: 0 <= i < |labels| && labels[i].name == n
    ensures multiset(Sort(Names(labels))) == multiset(Names(labels))
    ensures Sort(Names(labels)) == [] <==> labels == []
  {
    hide Sort;
    SortSorts(Names(labels));
    NamesAre(labels);
    assert |multiset(Sort(Names(labels)))| == |multiset(Names(labels))| == |labels|;
  }

  lemma {:induction false} JoinAgrees(a: Labels, b: Labels, names: seq<string>)
    requires forall n :: n in names ==> ValueOf(a, n) == ValueOf(b, n)
    ensures JoinItems(a, names) == JoinItems(b, names)
  {
    if names != [] {
      assert names[0] in names;
      JoinAgrees(a, b, names[1..]);
    }
  }

  lemma SameTextDecodes(a: Labels, b: Labels)
    requires forall n :: n in Sort(Names(a)) || n in Sort(Names(b)) ==> IsName(n)
    requires SerializeLabels(a) == SerializeLabels(b)
    ensures Sort(Names(a)) == Sort(Names(b)) && forall n :: n in Sort(Names(a)) ==> ValueOf(a, n) == ValueOf(b, n)
  {
    hide JoinItems, ValueOf, Sort, Names, IsName;
    var names, others := Sort(Names(a)), Sort(Names(b));
    if names != [] && others != [] {
      assert SerializeLabels(a)[1..] == JoinItems(a, names) + "}";
      assert SerializeLabels(b)[1..] == JoinItems(b, others) + "}";
      JoinDecodes(a, names, b, others);
    }
  }

  lemma SameLabelsSameText(a: Labels, b: Labels)
    requires SameLabels(a, b)
    ensures SerializeLabels(a) == SerializeLabels(b)
  {
    hide JoinItems, ValueOf, Sort;
    SortedNames(a);
    SortCanonical(Names(a), Names(b));
    JoinAgrees(a, b, Sort(Names(a)));
  }

  /** Two label objects have one text exactly when they have the same entries: no series is ever merged with another. */
  lemma SerializeIsInjective(a: Labels, b: Labels)
    requires forall n :: n in Names(a) || n in Names(b) ==> IsName(n)
    ensures SerializeLabels(a) == SerializeLabels(b) <==> SameLabels(a, b)
  {
    hide ValueOf, Sort, SerializeLabels, IsName;
    if SameLabels(a, b) {
      SameLabelsSameText(a, b);
    }
    if SerializeLabels(a) == SerializeLabels(b) {
      SortedNames(a);
      SortedNames(b);
      SameElements(Sort(Names(a)), Names(a));
      SameElements(Sort(Names(b)), Names(b));
      SameTextDecodes(a, b);
    }
  }
}
