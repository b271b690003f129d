/**
 wrapText of namespaces_of: text filled greedily into lines. Text is ASCII, where a byte is
 a character and strings.Fields splits at the six white-space characters.
 */
module WrapText {
  predicate IsSpace(c: char) {
    c == ' ' || c == '\t' || c == '\n' || c == 11 as char || c == 12 as char || c == '\r'
  }

  /** One more character: white space ends a word, and the next other character starts one. */
  function Extend(f: seq<string>, starts: bool, c: char): seq<string>
    requires starts || f != []
  {
    if IsSpace(c) then f else if starts then f + [[c]] else f[|f| - 1 := Last(f) + [c]]
  }

  predicate AtStart(s: string) {
    s == [] || IsSpace(s[|s| - 1])
  }

  /** strings.Fields: the maximal runs of characters that are not white space. */
  function Fields(s: string): (r: seq<string>)
    ensures r != [] || AtStart(s)
  {
    if s == [] then [] else Extend(Fields(s[..|s| - 1]), AtStart(s[..|s| - 1]), s[|s| - 1])
  }

  /** The lines of a text, split at newlines. */
  function LinesOf(s: string): (r: seq<string>)
    ensures r != []
  {
    if s == [] then [[]]
    else
      var n := |s| - 1;
      var l := LinesOf(s[..n]);
      if s[n] == '\n' then l + [[]] else l[|l| - 1 := l[|l| - 1] + [s[n]]]
  }

  /** Words on one line, with single spaces between them. */
  function Spaced(line: seq<string>): string {
    if line == [] then []
    else if |line| == 1 then line[0]
    else Spaced(line[..|line| - 1]) + " " + line[|line| - 1]
  }

  function Flat(lines: seq<seq<string>>): seq<string> {
    if lines == [] then [] else Flat(lines[..|lines| - 1]) + lines[|lines| - 1]
  }

  /** Where the loop puts the next word. */
  function Place(g: seq<seq<string>>, word: string, width: int): seq<seq<string>> {
    if g == [] || |Spaced(Last(g))| + |word| + 1 > width then g + [[word]] else g[|g| - 1 := Last(g) + [word]]
  }

  function Greedy(words: seq<string>, width: int): (r: seq<seq<string>>)
    ensures words != [] ==> r != []
    ensures forall i :: 0 <= i < |r| ==> r[i] != []
  {
    if words == [] then [] else Place(Greedy(words[..|words| - 1], width), words[|words| - 1], width)
  }

  function Last<T>(lines: seq<T>): T
    requires lines != []
  {
    lines[|lines| - 1]
  }

  /** A line with two words or more is within the width. */
  predicate Fits(line: seq<string>, width: int) {
    |line| > 1 ==> |Spaced(line)| <= width
  }

  function Render(lines: seq<seq<string>>, indent: string): string {
    if lines == [] then []
    else
      var n := |lines| - 1;
      (if n == 0 then [] else Render(lines[..n], indent) + "\n") + indent + Spaced(lines[n])
  }

  function Wrapped(text: string, width: int, indent: string): string {
    Render(Greedy(Fields(text), width), indent)
  }

  method WrapText(text: string, width: int, indent: string) returns (result: string)
    ensures result == Wrapped(text, width, indent)
  {
    var words := Fields(text);
    if |words| == 0 {
      return "";
    }
    RenderFirst(words, width, indent);
    result := indent + words[0];
    var column := |words[0]|;
    for i := 1 to |words|
      invariant result == Render(Greedy(words[..i], width), indent)
      invariant column == |Spaced(Last(Greedy(words[..i], width)))|
    {
      var word := words[i];
      RenderWord(words, i, width, indent);
      if column + |word| + 1 > width {
        result := result + "\n" + indent + word;
        column := |word|;
      } else {
        result := result + " " + word;
        column := column + 1 + |word|;
      }
    }
    assert words[..|words|] == words;
  }

  lemma {:induction false} RenderOne(word: string, indent: string)
    ensures Render([[word]], indent) == indent + word
  {
    assert [] + indent == indent;
  }

  lemma {:induction false} RenderNewLine(g: seq<seq<string>>, word: string, indent: string)
    requires g != []
    ensures Render(g + [[word]], indent) == Render(g, indent) + "\n" + indent + word
  {
    assert (g + [[word]])[..|g|] == g;
  }

  lemma {:induction false} RenderSameLine(g: seq<seq<string>>, word: string, indent: string)
    requires g != [] && Last(g) != []
    ensures Render(g[|g| - 1 := Last(g) + [word]], indent) == Render(g, indent) + " " + word
  {
    var n := |g| - 1;
    SpacedSnoc(Last(g), word);
    assert g[n := Last(g) + [word]][..n] == g[..n];
    var before := if n == 0 then [] else Render(g[..n], indent) + "\n";
    assert before + indent + (Spaced(Last(g)) + " " + word) == (before + indent + Spaced(Last(g))) + " " + word;
  }

  lemma {:induction false} SpacedSnoc(line: seq<string>, w: string)
    ensures Spaced(line + [w]) == if line == [] then w else Spaced(line) + " " + w
  {
    assert (line + [w])[..|line|] == line;
  }

  /** What either branch of the loop does. */
  lemma {:induction false} RenderNext(g: seq<seq<string>>, word: string, width: int, indent: string)
    requires g != [] && Last(g) != []
    ensures var g' := Place(g, word, width);
            if |Spaced(Last(g))| + |word| + 1 > width
            then Render(g', indent) == Render(g, indent) + "\n" + indent + word && |Spaced(Last(g'))| == |word|
            else Render(g', indent) == Render(g, indent) + " " + word &&
                 |Spaced(Last(g'))| == |Spaced(Last(g))| + 1 + |word|
  {
    if |Spaced(Last(g))| + |word| + 1 > width {
      RenderNewLine(g, word, indent);
    } else {
      RenderSameLine(g, word, indent);
      SpacedSnoc(Last(g), word);
    }
  }

  lemma {:induction false} RenderFirst(words: seq<string>, width: int, indent: string)
    requires words != []
    ensures var g := Greedy(words[..1], width); Render(g, indent) == indent + words[0] && Spaced(Last(g)) == words[0]
  {
    assert words[..1][..0] == [] && Greedy(words[..1][..0], width) == [];
    assert Greedy(words[..1], width) == [[words[0]]];
    RenderOne(words[0], indent);
  }

  /** What one more word does to the rendering, and to the length of its last line. */
  lemma {:induction false} RenderWord(words: seq<string>, i: nat, width: int, indent: string)
    requires 0 < i < |words|
    ensures var g, g', word := Greedy(words[..i], width), Greedy(words[..i + 1], width), words[i];
            if |Spaced(Last(g))| + |word| + 1 > width
            then Render(g', indent) == Render(g, indent) + "\n" + indent + word && |Spaced(Last(g'))| == |word|
            else Render(g', indent) == Render(g, indent) + " " + word &&
                 |Spaced(Last(g'))| == |Spaced(Last(g))| + 1 + |word|
  {
    assert words[..i + 1][..i] == words[..i];
    RenderNext(Greedy(words[..i], width), words[i], width, indent);
  }

  // ----- the words

  predicate IsWord(w: string) {
    w != [] && forall i :: 0 <= i < |w| ==> !IsSpace(w[i])
  }

  predicate Blank(s: string) {
    forall i :: 0 <= i < |s| ==> IsSpace(s[i])
  }

  lemma {:induction false} FieldsAreWords(s: string)
    ensures forall i :: 0 <= i < |Fields(s)| ==> IsWord(Fields(s)[i])
    decreases |s|
  {
    if s != [] {
      FieldsAreWords(s[..|s| - 1]);
    }
  }

  lemma {:induction false} FieldsBlank(s: string, b: string)
    requires Blank(b)
    ensures Fields(s + b) == Fields(s)
    decreases |b|
  {
    if b == [] {
      assert s + b == s;
    } else {
      var m := |b| - 1;
      assert (s + b)[..|s| + m] == s + b[..m];
      FieldsBlank(s, b[..m]);
    }
  }

  lemma {:induction false} FieldsWord(s: string, w: string)
    requires IsWord(w) && (s == [] || IsSpace(s[|s| - 1]))
    ensures Fields(s + w) == Fields(s) + [w]
    decreases |w|
  {
    var m := |w| - 1;
    assert (s + w)[..|s| + m] == s + w[..m];
    if m == 0 {
      assert s + w[..m] == s && w == [w[0]];
    } else {
      FieldsWord(s, w[..m]);
      assert w[..m] + [w[m]] == w;
    }
  }

  lemma {:induction false} FieldsNextWord(s: string, b: string, w: string, all: string)
    requires Blank(b) && b != [] && IsWord(w) && all == s + b + w
    ensures Fields(all) == Fields(s) + [w]
  {
    FieldsBlank(s, b);
    FieldsWord(s + b, w);
  }

  lemma {:induction false} FieldsFirstWord(b: string, w: string, all: string)
    requires Blank(b) && IsWord(w) && all == b + w
    ensures Fields(all) == [w]
  {
    assert [] + b == b;
    FieldsBlank([], b);
    FieldsWord(b, w);
  }

  lemma {:induction false} Regroup(a: string, b: string, c: string, d: string)
    ensures a + b + c + d == a + (b + c) + d
  {
  }

  lemma {:induction false} FieldsPlace(g: seq<seq<string>>, w: string, width: int, indent: string, r: string,
          r': string)
    requires Blank(indent) && IsWord(w) && (g != [] ==> Last(g) != [])
    requires r == Render(g, indent) && r' == Render(Place(g, w, width), indent)
    ensures Fields(r') == Fields(r) + [w]
  {
    if g == [] {
      RenderOne(w, indent);
      FieldsFirstWord(indent, w, r');
    } else {
      RenderNext(g, w, width, indent);
      if |Spaced(Last(g))| + |w| + 1 > width {
        var b := "\n" + indent;
        Regroup(r, "\n", indent, w);
        assert b != [] && b[0] == '\n' && forall i :: 1 <= i < |b| ==> b[i] == indent[i - 1];
        FieldsNextWord(r, b, w, r');
      } else {
        FieldsNextWord(r, " ", w, r');
      }
    }
  }

  lemma {:induction false} FieldsRender(words: seq<string>, width: int, indent: string, r: string)
    requires Blank(indent) && forall i :: 0 <= i < |words| ==> IsWord(words[i])
    requires r == Render(Greedy(words, width), indent)
    ensures Fields(r) == words
    decreases |words|
  {
    if words != [] {
      var n := |words| - 1;
      var g := Greedy(words[..n], width);
      var before := Render(g, indent);
      FieldsRender(words[..n], width, indent, before);
      assert r == Render(Place(g, words[n], width), indent);
      FieldsPlace(g, words[n], width, indent, before, r);
      assert words[..n] + [words[n]] == words;
    }
  }

  /** Wrapping changes white space only. */
  lemma {:induction false} WrapKeepsWords(text: string, width: int, indent: string)
    requires Blank(indent)
    ensures Fields(Wrapped(text, width, indent)) == Fields(text)
  {
    FieldsAreWords(text);
    FieldsRender(Fields(text), width, indent, Wrapped(text, width, indent));
  }

  /** Texts put together from words and blanks. */
  function Mixed(parts: seq<(string, string)>): string {
    if parts == [] then "" else Mixed(parts[..|parts| - 1]) + parts[|parts| - 1].0 + parts[|parts| - 1].1
  }

  ghost predicate Splits(parts: seq<(string, string)>, white: set<char>) {
    forall i :: 0 <= i < |parts| ==>
      && parts[i].1 != [] && (forall j :: 0 <= j < |parts[i].1| ==> parts[i].1[j] !in white)
      && (i > 0 ==> parts[i].0 != []) && forall j :: 0 <= j < |parts[i].0| ==> parts[i].0[j] in white
  }

  lemma {:induction false} FieldsMixed(before: string, blank: string, word: string, more: bool)
    requires Blank(blank) && IsWord(word) && if more then blank != [] else before == ""
    ensures Fields(before + blank + word) == Fields(before) + [word]
  {
    if more {
      FieldsNextWord(before, blank, word, before + blank + word);
    } else {
      assert "" + blank == blank;
      FieldsFirstWord(blank, word, before + blank + word);
    }
  }

  /** White space is the six ASCII characters, and every run of others is one word. */
  lemma {:induction false} FieldsExactly(parts: seq<(string, string)>, after: string)
    requires Splits(parts, {' ', '\t', '\n', 11 as char, 12 as char, '\r'})
    requires forall j :: 0 <= j < |after| ==> after[j] in {' ', '\t', '\n', 11 as char, 12 as char, '\r'}
    ensures Fields(Mixed(parts) + after) == seq(|parts|, i requires 0 <= i < |parts| => parts[i].1)
    decreases |parts|
  {
    FieldsBlank(Mixed(parts), after);
    if parts != [] {
      var n := |parts| - 1;
      FieldsExactly(parts[..n], "");
      assert Mixed(parts[..n]) + "" == Mixed(parts[..n]);
      FieldsMixed(Mixed(parts[..n]), parts[n].0, parts[n].1, n > 0);
    }
  }

  // ----- the lines

  lemma {:induction false} LinesWithout(s: string, t: string)
    requires '\n' !in t
    ensures LinesOf(s + t) == LinesOf(s)[|LinesOf(s)| - 1 := Last(LinesOf(s)) + t]
    decreases |t|
  {
    if t == [] {
      assert s + t == s && Last(LinesOf(s)) + t == Last(LinesOf(s));
    } else {
      var m := |t| - 1;
      assert (s + t)[..|s| + m] == s + t[..m];
      LinesWithout(s, t[..m]);
      var l := Last(LinesOf(s));
      assert (l + t[..m]) + [t[m]] == l + t;
    }
  }

  lemma {:induction false} LinesNext(s: string, t: string, all: string)
    requires '\n' !in t && all == s + "\n" + t
    ensures LinesOf(all) == LinesOf(s) + [t]
  {
    var sn := s + "\n";
    assert sn[..|s|] == s;
    assert LinesOf(sn) == LinesOf(s) + [[]];
    LinesWithout(sn, t);
    assert [] + t == t;
  }

  lemma {:induction false} LinesOne(t: string)
    requires '\n' !in t
    ensures LinesOf(t) == [t]
  {
    LinesWithout([], t);
    assert [] + t == t;
  }

  lemma {:induction false} SpacedOneLine(line: seq<string>)
    requires forall i :: 0 <= i < |line| ==> IsWord(line[i])
    ensures forall j :: 0 <= j < |Spaced(line)| && IsSpace(Spaced(line)[j]) ==> Spaced(line)[j] == ' '
    ensures '\n' !in Spaced(line)
    decreases |line|
  {
    if |line| > 1 {
      SpacedOneLine(line[..|line| - 1]);
    }
  }

  ghost predicate AllWords(lines: seq<seq<string>>) {
    forall i, j :: 0 <= i < |lines| && 0 <= j < |lines[i]| ==> IsWord(lines[i][j])
  }

  lemma {:induction false} LinesOfRender(lines: seq<seq<string>>, indent: string, r: string)
    requires lines != [] && AllWords(lines) && '\n' !in indent && r == Render(lines, indent)
    ensures |LinesOf(r)| == |lines|
    ensures forall i :: 0 <= i < |lines| ==> LinesOf(r)[i] == indent + Spaced(lines[i])
    decreases |lines|
  {
    var n := |lines| - 1;
    var line := indent + Spaced(lines[n]);
    SpacedOneLine(lines[n]);
    if n == 0 {
      assert [] + line == line;
      LinesOne(r);
    } else {
      var before := Render(lines[..n], indent);
      LinesOfRender(lines[..n], indent, before);
      assert (before + "\n") + indent + Spaced(lines[n]) == before + "\n" + line;
      LinesNext(before, line, r);
    }
  }

  lemma {:induction false} GreedyWords(words: seq<string>, width: int)
    requires forall i :: 0 <= i < |words| ==> IsWord(words[i])
    ensures AllWords(Greedy(words, width))
    decreases |words|
  {
    if words != [] {
      GreedyWords(words[..|words| - 1], width);
    }
  }

  lemma {:induction false} LinesOfWrapped(text: string, width: int, indent: string)
    requires '\n' !in indent && Fields(text) != []
    ensures var g := Greedy(Fields(text), width);
            var lines := LinesOf(Wrapped(text, width, indent));
            |lines| == |g| && forall i :: 0 <= i < |g| ==> lines[i] == indent + Spaced(g[i])
  {
    FieldsAreWords(text);
    GreedyWords(Fields(text), width);
    LinesOfRender(Greedy(Fields(text), width), indent, Wrapped(text, width, indent));
  }

  /** Every line of the output starts with the indent, has no white space but spaces behind it, and
      is within the width beside it or is a single word; so that every line fits if every word does. */
  lemma {:induction false} WrapFits(text: string, width: int, indent: string, i: nat)
    requires '\n' !in indent && Fields(text) != [] && i < |LinesOf(Wrapped(text, width, indent))|
    ensures var line := LinesOf(Wrapped(text, width, indent))[i];
            && indent <= line
            && (forall j :: |indent| <= j < |line| && IsSpace(line[j]) ==> line[j] == ' ')
            && (|line| <= |indent| + width || exists w :: w in Fields(text) && line == indent + w)
  {
    var g := Greedy(Fields(text), width);
    LinesOfWrapped(text, width, indent);
    GreedyFits(Fields(text), width);
    FieldsAreWords(text);
    GreedyWords(Fields(text), width);
    SpacedOneLine(g[i]);
    if |g[i]| == 1 {
      GreedyFrom(Fields(text), width, i);
      assert g[i][0] in g[i];
    }
  }

  lemma {:induction false} GreedyFits(words: seq<string>, width: int)
    ensures forall i :: 0 <= i < |Greedy(words, width)| ==> Fits(Greedy(words, width)[i], width)
    decreases |words|
  {
    if words != [] {
      var n := |words| - 1;
      var g := Greedy(words[..n], width);
      GreedyFits(words[..n], width);
      if g != [] {
        SpacedSnoc(Last(g), words[n]);
      }
    }
  }

  lemma {:induction false} GreedyFrom(words: seq<string>, width: int, i: nat)
    requires i < |Greedy(words, width)|
    ensures forall w :: w in Greedy(words, width)[i] ==> w in words
    decreases |words|
  {
    var n := |words| - 1;
    if i < |Greedy(words[..n], width)| {
      GreedyFrom(words[..n], width, i);
    }
  }

  // ----- optimality

  /** Fewer lines than p, or as many and no longer a last line. */
  predicate NoWorse(g: seq<seq<string>>, p: seq<seq<string>>) {
    |g| < |p| || (|g| == |p| && (g == [] || |Spaced(Last(g))| <= |Spaced(Last(p))|))
  }

  /** No way to put the words on lines in their order, where lines of two words or more are
      within the width, is better than the greedy one. */
  lemma {:induction false} GreedyOptimal(words: seq<string>, width: int, p: seq<seq<string>>)
    requires Flat(p) == words && forall i :: 0 <= i < |p| ==> Fits(p[i], width)
    requires forall i :: 0 <= i < |words| ==> IsWord(words[i])
    ensures NoWorse(Greedy(words, width), p)
    decreases |words|, |p|
  {
    if words != [] {
      var k := |p| - 1;
      var last := p[k];
      if last == [] {
        assert Flat(p[..k]) == words;
        GreedyOptimal(words, width, p[..k]);
      } else {
        var n, m := |words| - 1, |last| - 1;
        var w := last[m];
        var p' := p[k := last[..m]];
        assert p'[..k] == p[..k] && last == last[..m] + [w];
        assert words == (Flat(p[..k]) + last[..m]) + [w];
        assert words[..n] == Flat(p') && words[n] == w;
        GreedyOptimal(words[..n], width, p');
        GreedyLast(words[..n], width);
        PlaceNoWorse(Greedy(words[..n], width), w, width, p', p);
      }
    }
  }

  lemma {:induction false} GreedyLast(words: seq<string>, width: int)
    requires forall i :: 0 <= i < |words| ==> IsWord(words[i])
    ensures words != [] ==> Spaced(Last(Greedy(words, width))) != []
  {
    if words != [] {
      var g := Greedy(words[..|words| - 1], width);
      if g != [] {
        SpacedSnoc(Last(g), words[|words| - 1]);
      }
    }
  }

  /** One more word: a greedy line takes it if any line at most as long could. */
  lemma {:induction false} PlaceNoWorse(g: seq<seq<string>>, w: string, width: int, p: seq<seq<string>>,
          p': seq<seq<string>>)
    requires NoWorse(g, p) && p != [] && |p'| == |p| && Last(p') == Last(p) + [w] && Fits(Last(p'), width)
    requires g != [] ==> Last(g) != [] && Spaced(Last(g)) != []
    ensures NoWorse(Place(g, w, width), p')
  {
    SpacedSnoc(Last(p), w);
    if g != [] {
      SpacedSnoc(Last(g), w);
    }
  }

  lemma {:induction false} FieldsSnoc(s: string, c: char, all: string)
    requires all == s + [c]
    ensures Fields(all) == Extend(Fields(s), AtStart(s), c)
  {
    assert all[..|s|] == s;
  }

  lemma {:induction false} FieldsConcatLine(s: string, t: string, all: string)
    requires all == s + "\n" + t
    ensures Fields(all) == Fields(s) + Fields(t)
    decreases |t|
  {
    if t == [] {
      FieldsSnoc(s, '\n', all);
    } else {
      var m := |t| - 1;
      var all' := all[..|all| - 1];
      FieldsConcatLine(s, t[..m], all');
      AtStartAfter(s, t[..m], all');
      FieldsSnoc(all', t[m], all);
      FieldsSnoc(t[..m], t[m], t);
      ExtendAfter(Fields(s), Fields(t[..m]), AtStart(t[..m]), t[m]);
    }
  }

  lemma {:induction false} AtStartAfter(s: string, t: string, all: string)
    requires all == s + "\n" + t
    ensures AtStart(all) == AtStart(t)
  {
  }

  lemma {:induction false} ExtendAfter(a: seq<string>, b: seq<string>, starts: bool, c: char)
    requires starts || b != []
    ensures Extend(a + b, starts, c) == a + Extend(b, starts, c)
  {
  }

  function EachFields(lines: seq<string>): (r: seq<seq<string>>)
    ensures |r| == |lines| && forall i :: 0 <= i < |r| ==> r[i] == Fields(lines[i])
  {
    seq(|lines|, i requires 0 <= i < |lines| => Fields(lines[i]))
  }

  /** The words of a text are the words of its lines. */
  lemma {:induction false} FieldsOfLines(s: string, t: string, all: string)
    requires '\n' !in t && all == s + t
    ensures Flat(EachFields(LinesOf(all))) == Fields(all)
    decreases |s|
  {
    if s == [] {
      assert all == t;
      LinesOne(t);
      assert EachFields([t])[..0] == [];
    } else {
      var n := |s| - 1;
      if s[n] == '\n' {
        assert s[..n] + [] == s[..n];
        FieldsOfLines(s[..n], [], s[..n]);
        FieldsOfLast(s[..n], t, all);
      } else {
        assert all == s[..n] + ([s[n]] + t);
        FieldsOfLines(s[..n], [s[n]] + t, all);
      }
    }
  }

  lemma {:induction false} FieldsOfLast(s: string, t: string, all: string)
    requires '\n' !in t && all == s + "\n" + t && Flat(EachFields(LinesOf(s))) == Fields(s)
    ensures Flat(EachFields(LinesOf(all))) == Fields(all)
  {
    LinesNext(s, t, all);
    FieldsConcatLine(s, t, all);
    FlatSnoc(EachFields(LinesOf(s)), Fields(t), EachFields(LinesOf(all)));
  }

  lemma {:induction false} FlatSnoc(p: seq<seq<string>>, line: seq<string>, all: seq<seq<string>>)
    requires |all| == |p| + 1 && all[|p|] == line && forall i :: 0 <= i < |p| ==> all[i] == p[i]
    ensures Flat(all) == Flat(p) + line
  {
    assert all[..|p|] == p;
  }

  lemma {:induction false} SpacedShortest(l: string)
    ensures |Spaced(Fields(l))| + (if l != [] && IsSpace(l[|l| - 1]) && Fields(l) != [] then 1 else 0) <= |l|
    decreases |l|
  {
    if l != [] {
      var n := |l| - 1;
      var f := Fields(l[..n]);
      SpacedShortest(l[..n]);
      if !IsSpace(l[n]) {
        if n == 0 || IsSpace(l[n - 1]) {
          SpacedSnoc(f, [l[n]]);
        } else {
          var k := |f| - 1;
          assert f == f[..k] + [f[k]] && Fields(l) == f[..k] + [f[k] + [l[n]]];
          SpacedSnoc(f[..k], f[k]);
          SpacedSnoc(f[..k], f[k] + [l[n]]);
        }
      }
    }
  }

  /** No text of the same words whose lines are within the width, or hold one word, has fewer lines. */
  lemma {:induction false} WrapOptimal(text: string, width: int, indent: string, other: string)
    requires '\n' !in indent && Fields(text) != [] && Fields(other) == Fields(text)
    requires forall i :: 0 <= i < |LinesOf(other)| ==> |LinesOf(other)[i]| <= width || |Fields(LinesOf(other)[i])| <= 1
    ensures |LinesOf(Wrapped(text, width, indent))| <= |LinesOf(other)|
  {
    var p := EachFields(LinesOf(other));
    assert other + [] == other;
    FieldsOfLines(other, [], other);
    forall i | 0 <= i < |p|
      ensures Fits(p[i], width)
    {
      SpacedShortest(LinesOf(other)[i]);
    }
    FieldsAreWords(text);
    GreedyOptimal(Fields(text), width, p);
    LinesOfWrapped(text, width, indent);
  }
}
