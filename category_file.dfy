/**
 * The category keywords file: one `Category: keyword1, keyword2, ...` line
 * per category under a two-line comment header. Loading reads it line by
 * line into an insertion-ordered dict from category names to keyword lists;
 * saving writes such a dict back in the same format.
 */
module CategoryFile {

  import opened Wrappers
  import opened Text
  import opened OrderedMaps

  type Categories = Entries<seq<string>>
  type Entry = (string, seq<string>)

  /** The two comment lines a saved file starts with (fetcher.py:237-238). */
  const Header1: string := "# Auto-category mapping file"
  const Header2: string := "# Format: Category: keyword1, keyword2, ..."

  /** A keyword as loading produces it: non-empty, stripped, without a comma. */
  predicate IsKeyword(k: string)
  {
    k != [] && IsStripped(k) && ',' !in k
  }

  /** `[kw.strip() for kw in pieces if kw.strip()]`. */
  function KeepKeywords(pieces: seq<string>): (r: seq<string>)
    ensures |r| <= |pieces|
    ensures forall i :: 0 <= i < |r| ==> r[i] != [] && IsStripped(r[i])
    decreases |pieces|
  {
    if pieces == [] then []
    else
      var k := Strip(pieces[0]);
      (if k == [] then [] else [k]) + KeepKeywords(pieces[1..])
  }

  /** A single piece gives its stripped text, unless that is empty. */
  lemma KeepKeywordsOne(piece: string)
    ensures Strip(piece) == [] ==> KeepKeywords([piece]) == []
    ensures Strip(piece) != [] ==> KeepKeywords([piece]) == [Strip(piece)]
  {
    assert [piece][1..] == [];
  }

  /** The pieces are handled one after the other: the kept keywords stay in piece order. */
  lemma {:induction false} KeepKeywordsAppend(a: seq<string>, b: seq<string>)
    ensures KeepKeywords(a + b) == KeepKeywords(a) + KeepKeywords(b)
    decreases |a|
  {
    if a == [] {
      assert a + b == b;
    } else {
      var ab := a + b;
      var head := if Strip(a[0]) == [] then [] else [Strip(a[0])];
      assert ab[0] == a[0];
      assert ab[1..] == a[1..] + b;
      KeepKeywordsAppend(a[1..], b);
      calc {
        KeepKeywords(ab);
        head + KeepKeywords(a[1..] + b);
        head + (KeepKeywords(a[1..]) + KeepKeywords(b));
        (head + KeepKeywords(a[1..])) + KeepKeywords(b);
      }
    }
  }

  /** A keyword is kept exactly when it is the non-empty stripped form of some piece. */
  lemma {:induction false} KeepKeywordsMembers(pieces: seq<string>, k: string)
    ensures k in KeepKeywords(pieces) <==> k != [] && exists i :: 0 <= i < |pieces| && Strip(pieces[i]) == k
    decreases |pieces|
  {
    if pieces != [] {
      var rest := pieces[1..];
      KeepKeywordsMembers(rest, k);
      if exists i :: 0 <= i < |rest| && Strip(rest[i]) == k {
        var i :| 0 <= i < |rest| && Strip(rest[i]) == k;
        assert Strip(pieces[i + 1]) == k;
      }
      if exists i :: 0 <= i < |pieces| && Strip(pieces[i]) == k {
        var i :| 0 <= i < |pieces| && Strip(pieces[i]) == k;
        if i > 0 {
          assert Strip(rest[i - 1]) == k;
        }
      }
    }
  }

  /** Stripping adds no character, so pieces without a comma give keywords without one. */
  lemma {:induction false} KeepKeywordsNoComma(pieces: seq<string>)
    requires forall j :: 0 <= j < |pieces| ==> ',' !in pieces[j]
    ensures forall i :: 0 <= i < |KeepKeywords(pieces)| ==> ',' !in KeepKeywords(pieces)[i]
    decreases |pieces|
  {
    if pieces != [] {
      var k := Strip(pieces[0]);
      StripNoChar(pieces[0], ',');
      var rest := KeepKeywords(pieces[1..]);
      assert forall j :: 0 <= j < |pieces[1..]| ==> ',' !in pieces[1..][j] by {
        forall j | 0 <= j < |pieces[1..]| ensures ',' !in pieces[1..][j] {
          assert pieces[1..][j] == pieces[j + 1];
        }
      }
      KeepKeywordsNoComma(pieces[1..]);
      var r := KeepKeywords(pieces);
      if k == [] {
        assert r == rest;
      } else {
        assert r == [k] + rest;
        forall i | 0 <= i < |r| ensures ',' !in r[i] {
          if i > 0 {
            assert r[i] == rest[i - 1];
          }
        }
      }
    }
  }

  /** The keywords after the colon (fetcher.py:227). */
  function ParseKeywords(s: string): seq<string>
  {
    KeepKeywords(SplitOn(s, ','))
  }

  /** What the keyword list of a line holds: non-empty, stripped keywords without commas. */
  lemma ParseKeywordsAreKeywords(s: string)
    ensures forall i :: 0 <= i < |ParseKeywords(s)| ==> IsKeyword(ParseKeywords(s)[i])
  {
    KeepKeywordsNoComma(SplitOn(s, ','));
  }

  /**
   * One line of the file (fetcher.py:222-228): a category and its keywords,
   * or `None` for a line that is blank or a comment after stripping, or has
   * no colon. The category is the stripped text before the first colon.
   */
  function ParseLine(line: string): (r: Option<Entry>)
    ensures r.None? <==> Strip(line) == [] || StartsWith(Strip(line), '#') || ':' !in Strip(line)
    ensures r.Some? ==>
              exists before, after :: Strip(line) == before + [':'] + after && ':' !in before &&
                                      r.value == (Strip(before), ParseKeywords(after))
  {
    var t := Strip(line);
    if t == [] || StartsWith(t, '#') then None
    else
      match SplitOnce(t, ':')
      case None => None
      case Some(parts) => Some((Strip(parts.0), ParseKeywords(parts.1)))
  }

  /**
   * Which lines are category lines, and what they yield: a stripped name
   * without a colon and a list of keywords.
   */
  lemma ParseLineMeaning(line: string)
    ensures ParseLine(line).None? <==> Strip(line) == [] || StartsWith(Strip(line), '#') || ':' !in Strip(line)
    ensures ParseLine(line).Some? ==> IsStripped(ParseLine(line).value.0) && ':' !in ParseLine(line).value.0
    ensures ParseLine(line).Some? ==>
              forall i :: 0 <= i < |ParseLine(line).value.1| ==> IsKeyword(ParseLine(line).value.1[i])
  {
    var t := Strip(line);
    if ParseLine(line).Some? {
      var parts := SplitOnce(t, ':').value;
      StripNoChar(parts.0, ':');
      ParseKeywordsAreKeywords(parts.1);
    }
  }

  /** One line's effect on the dict: `categories[category] = keywords` for a category line. */
  function Assign(acc: Categories, line: string): Categories
  {
    match ParseLine(line)
    case None => acc
    case Some(entry) => Put(acc, entry.0, entry.1)
  }

  /** The lines after `acc` was filled, one `Assign` per line. */
  function ParseFrom(acc: Categories, lines: seq<string>): Categories
    decreases |lines|
  {
    if lines == [] then acc else ParseFrom(Assign(acc, lines[0]), lines[1..])
  }

  /** One line keeps a dict a dict. */
  lemma AssignUnique(acc: Categories, line: string)
    requires UniqueKeys(acc)
    ensures UniqueKeys(Assign(acc, line))
  {
    var entry := ParseLine(line);
    if entry.Some? {
      PutUnique(acc, entry.value.0, entry.value.1);
    }
  }

  /** One line moves no category. */
  lemma AssignPrefix(acc: Categories, line: string)
    ensures |acc| <= |Assign(acc, line)|
    ensures forall i :: 0 <= i < |acc| ==> Assign(acc, line)[i].0 == acc[i].0
  {
    var entry := ParseLine(line);
    if entry.Some? {
      PutPrefix(acc, entry.value.0, entry.value.1);
    }
  }

  /** A category line gives its category its keywords; other categories keep theirs. */
  lemma AssignGet(acc: Categories, line: string, k: string)
    ensures Get(Assign(acc, line), k)
            == if ParseLine(line).Some? && ParseLine(line).value.0 == k then Some(ParseLine(line).value.1)
               else Get(acc, k)
  {
    var entry := ParseLine(line);
    if entry.Some? {
      PutGet(acc, entry.value.0, entry.value.1, k);
    }
  }

  /**
   * Text-mode reading with universal newlines: a `\r\n` pair and a lone
   * `\r` each become one `\n`.
   */
  function UniversalNewlines(s: string): (r: string)
    ensures '\r' !in r
    ensures '\r' !in s ==> r == s
    decreases |s|
  {
    if s == [] then []
    else if s[0] == '\r' then
      ['\n'] + UniversalNewlines(if |s| > 1 && s[1] == '\n' then s[2..] else s[1..])
    else
      assert s == [s[0]] + s[1..];
      [s[0]] + UniversalNewlines(s[1..])
  }

  /** Text without `\r` passes through unchanged ahead of what follows it. */
  lemma {:induction false} UniversalNewlinesPlain(a: string, b: string)
    requires '\r' !in a
    ensures UniversalNewlines(a + b) == a + UniversalNewlines(b)
    decreases |a|
  {
    if a == [] {
      assert a + b == b;
    } else {
      UniversalNewlinesPlain(a[1..], b);
      UniversalNewlinesStep(a[0], a[1..], b);
      assert [a[0]] + a[1..] == a;
    }
  }

  /** A character other than `\r` ahead of converted text is kept as it is. */
  lemma UniversalNewlinesStep(c: char, t: string, b: string)
    requires c != '\r'
    requires UniversalNewlines(t + b) == t + UniversalNewlines(b)
    ensures UniversalNewlines([c] + t + b) == [c] + t + UniversalNewlines(b)
  {
    assert [c] + t + b == [c] + (t + b);
    UniversalNewlinesChar(c, t + b);
  }

  /** A character other than `\r` is kept as it is. */
  lemma UniversalNewlinesChar(c: char, u: string)
    requires c != '\r'
    ensures UniversalNewlines([c] + u) == [c] + UniversalNewlines(u)
  {
    assert ([c] + u)[0] == c && ([c] + u)[1..] == u;
  }

  /** A `\r\n` pair becomes one `\n`. */
  lemma UniversalNewlinesCrLf(a: string, b: string)
    requires '\r' !in a
    ensures UniversalNewlines(a + ['\r', '\n'] + b) == a + ['\n'] + UniversalNewlines(b)
  {
    var t := ['\r', '\n'] + b;
    assert a + ['\r', '\n'] + b == a + t;
    UniversalNewlinesPlain(a, t);
    assert t[0] == '\r' && |t| > 1 && t[1] == '\n' && t[2..] == b;
  }

  /** A `\r` not followed by `\n` becomes one `\n`. */
  lemma UniversalNewlinesCr(a: string, b: string)
    requires '\r' !in a && (b == [] || b[0] != '\n')
    ensures UniversalNewlines(a + ['\r'] + b) == a + ['\n'] + UniversalNewlines(b)
  {
    var t := ['\r'] + b;
    assert a + ['\r'] + b == a + t;
    UniversalNewlinesPlain(a, t);
    assert UniversalNewlines(t) == ['\n'] + UniversalNewlines(b) by {
      assert t[0] == '\r' && t[1..] == b;
      assert !(|t| > 1 && t[1] == '\n');
    }
  }

  /**
   * The lines `for line in f` visits: the text up to each newline, and the
   * text after the last newline when it is not empty. The model drops each
   * line's `\n`, which `line.strip()` removes in any case.
   */
  function FileLines(content: string): (lines: seq<string>)
    ensures forall i :: 0 <= i < |lines| ==> '\n' !in lines[i] && '\r' !in lines[i]
  {
    var t := UniversalNewlines(content);
    var pieces := SplitOn(t, '\n');
    assert forall i :: 0 <= i < |pieces| ==> '\r' !in pieces[i] by {
      forall i | 0 <= i < |pieces| ensures '\r' !in pieces[i] {
        if '\r' in pieces[i] {
          JoinHasPiece(['\n'], pieces, i, '\r');
        }
      }
    }
    if pieces[|pieces| - 1] == [] then pieces[..|pieces| - 1] else pieces
  }

  /** What loading a file with this content yields. */
  function Load(content: string): (r: Categories)
    ensures UniqueKeys(r)
  {
    ParseFromUnique([], FileLines(content));
    ParseFrom([], FileLines(content))
  }

  /**
   * `load_category_keywords` (fetcher.py:215-231). `fileExists` is whether the
   * file exists; `content` is the text read from it (on a read error, what
   * was read before it, so that the categories parsed so far are returned).
   */
  method LoadCategoryKeywords(fileExists: bool, content: string) returns (categories: Categories)
    ensures categories == if fileExists then Load(content) else []
  {
    categories := [];
    if !fileExists {
      return;
    }
    var lines := FileLines(content);
    var i := 0;
    while i < |lines|
      invariant 0 <= i <= |lines|
      invariant ParseFrom(categories, lines[i..]) == Load(content)
    {
      assert lines[i..][1..] == lines[i + 1..];
      ghost var before := categories;
      var entry := ParseLine(lines[i]);
      if entry.Some? {
        categories := Put(categories, entry.value.0, entry.value.1);
      }
      assert categories == Assign(before, lines[i]);
      i := i + 1;
    }
    assert lines[i..] == [];
  }

  /** The keywords the last line naming `k` assigns, if there is one. */
  function LastFor(lines: seq<string>, k: string): Option<seq<string>>
    decreases |lines|
  {
    if lines == [] then None
    else
      var later := LastFor(lines[1..], k);
      if later.Some? then later
      else
        var entry := ParseLine(lines[0]);
        if entry.Some? && entry.value.0 == k then Some(entry.value.1) else None
  }

  /**
   * After loading, a category holds the keywords of the last line that
   * names it; a category no line names keeps what it had.
   */
  lemma {:induction false} ParseFromLookup(acc: Categories, lines: seq<string>, k: string)
    ensures Get(ParseFrom(acc, lines), k) == if LastFor(lines, k).Some? then LastFor(lines, k) else Get(acc, k)
    decreases |lines|
  {
    if lines != [] {
      AssignGet(acc, lines[0], k);
      ParseFromLookup(Assign(acc, lines[0]), lines[1..], k);
    }
  }

  /** Loading keeps a dict a dict: no category name appears twice. */
  lemma {:induction false} ParseFromUnique(acc: Categories, lines: seq<string>)
    requires UniqueKeys(acc)
    ensures UniqueKeys(ParseFrom(acc, lines))
    decreases |lines|
  {
    if lines != [] {
      AssignUnique(acc, lines[0]);
      ParseFromUnique(Assign(acc, lines[0]), lines[1..]);
    }
  }

  /**
   * Loading keeps a category where its first line put it: the categories
   * already present stay in front, in their order.
   */
  lemma {:induction false} ParseFromKeys(acc: Categories, lines: seq<string>)
    ensures |acc| <= |ParseFrom(acc, lines)|
    ensures forall i :: 0 <= i < |acc| ==> ParseFrom(acc, lines)[i].0 == acc[i].0
    decreases |lines|
  {
    if lines != [] {
      AssignPrefix(acc, lines[0]);
      ParseFromKeys(Assign(acc, lines[0]), lines[1..]);
    }
  }

  /** Parsing two runs of lines in a row is parsing their concatenation. */
  lemma {:induction false} ParseFromAppend(acc: Categories, a: seq<string>, b: seq<string>)
    ensures ParseFrom(acc, a + b) == ParseFrom(ParseFrom(acc, a), b)
    decreases |a|
  {
    if a == [] {
      assert a + b == b;
    } else {
      assert (a + b)[1..] == a[1..] + b;
      ParseFromAppend(Assign(acc, a[0]), a[1..], b);
    }
  }

  /** What each line parses to, in order. */
  function Parsed(lines: seq<string>): (r: seq<Option<Entry>>)
    ensures |r| == |lines|
    ensures forall i :: 0 <= i < |lines| ==> r[i] == ParseLine(lines[i])
  {
    seq(|lines|, i requires 0 <= i < |lines| => ParseLine(lines[i]))
  }

  /** One parsed line's effect on the dict. */
  function Apply(acc: Categories, entry: Option<Entry>): Categories
  {
    match entry
    case None => acc
    case Some(e) => Put(acc, e.0, e.1)
  }

  /** The parsed lines applied one after the other. */
  function Fold(acc: Categories, ps: seq<Option<Entry>>): Categories
    decreases |ps|
  {
    if ps == [] then acc else Fold(Apply(acc, ps[0]), ps[1..])
  }

  /** Loading parses every line and then applies the results in order. */
  lemma {:induction false} ParseFromFold(acc: Categories, lines: seq<string>)
    ensures ParseFrom(acc, lines) == Fold(acc, Parsed(lines))
    decreases |lines|
  {
    if lines != [] {
      assert Parsed(lines)[1..] == Parsed(lines[1..]);
      assert Assign(acc, lines[0]) == Apply(acc, Parsed(lines)[0]);
      ParseFromFold(Assign(acc, lines[0]), lines[1..]);
    }
  }

  /** Lines that are not category lines leave the dict as it was. */
  lemma {:induction false} FoldNone(acc: Categories, ps: seq<Option<Entry>>)
    requires forall i :: 0 <= i < |ps| ==> ps[i].None?
    ensures Fold(acc, ps) == acc
    decreases |ps|
  {
    if ps != [] {
      assert forall i :: 0 <= i < |ps| - 1 ==> ps[1..][i] == ps[i + 1];
      FoldNone(acc, ps[1..]);
    }
  }

  /** The line written for one category (fetcher.py:240). */
  function FormatLine(name: string, keywords: seq<string>): (r: string)
    ensures |name| + 2 <= |r| && r[..|name|] == name && r[|name|..|name| + 2] == ": "
  {
    name + ": " + Join(", ", keywords)
  }

  function BodyLines(categories: Categories): (r: seq<string>)
    ensures |r| == |categories|
    ensures forall i :: 0 <= i < |r| ==> r[i] == FormatLine(categories[i].0, categories[i].1)
  {
    seq(|categories|, i requires 0 <= i < |categories| => FormatLine(categories[i].0, categories[i].1))
  }

  /** Lines written one after the other, each ended by a newline. */
  function Unlines(lines: seq<string>): string
    decreases |lines|
  {
    if lines == [] then [] else lines[0] + "\n" + Unlines(lines[1..])
  }

  lemma {:induction false} UnlinesAppend(a: seq<string>, b: seq<string>)
    ensures Unlines(a + b) == Unlines(a) + Unlines(b)
    decreases |a|
  {
    if a == [] {
      assert a + b == b;
    } else {
      assert (a + b)[1..] == a[1..] + b;
      UnlinesAppend(a[1..], b);
    }
  }

  /** The file `save_category_keywords` writes for these categories (fetcher.py:237-240). */
  function FileText(categories: Categories): (r: string)
    ensures r == Header1 + "\n" + Header2 + "\n\n" + Unlines(BodyLines(categories))
  {
    var h := [Header1, Header2, ""];
    UnlinesAppend(h, BodyLines(categories));
    assert h[1..][1..] == [""] && Unlines([""]) == "\n";
    Unlines([Header1, Header2, ""] + BodyLines(categories))
  }

  /**
   * `save_category_keywords` (fetcher.py:233-242): the text written, header
   * first and then one line per category in dict order.
   */
  method SaveCategoryKeywords(categories: Categories) returns (text: string)
    ensures text == FileText(categories)
  {
    text := Header1 + "\n";
    text := text + Header2 + "\n\n";
    assert text == Unlines([Header1, Header2, ""]) by {
      var h := [Header1, Header2, ""];
      assert h[1..][1..] == [""] && Unlines([""]) == "\n";
      assert Unlines(h[1..]) == Header2 + "\n" + "\n";
    }
    assert [Header1, Header2, ""] + BodyLines(categories[..0]) == [Header1, Header2, ""];
    var i := 0;
    while i < |categories|
      invariant 0 <= i <= |categories|
      invariant text == Unlines([Header1, Header2, ""] + BodyLines(categories[..i]))
    {
      var line := FormatLine(categories[i].0, categories[i].1);
      assert BodyLines(categories[..i + 1]) == BodyLines(categories[..i]) + [line];
      UnlinesAppend([Header1, Header2, ""] + BodyLines(categories[..i]), [line]);
      assert [Header1, Header2, ""] + BodyLines(categories[..i + 1])
          == ([Header1, Header2, ""] + BodyLines(categories[..i])) + [line];
      text := text + line + "\n";
      i := i + 1;
    }
    assert categories[..i] == categories;
  }

  /** A category name the file format can carry unchanged. */
  predicate IsName(n: string)
  {
    n != [] && IsStripped(n) && ':' !in n && n[0] != '#' && '\n' !in n && '\r' !in n
  }

  /** A keyword the file format can carry unchanged. */
  predicate IsStorable(k: string)
  {
    IsKeyword(k) && '\n' !in k && '\r' !in k
  }

  /** Categories that survive a save and a load unchanged. */
  predicate Savable(categories: Categories)
  {
    && UniqueKeys(categories)
    && (forall i :: 0 <= i < |categories| ==> IsName(categories[i].0))
    && (forall i, j :: 0 <= i < |categories| && 0 <= j < |categories[i].1| ==> IsStorable(categories[i].1[j]))
  }

  /**
   * Loading what saving wrote gives back the same categories, in the same
   * order, when every name and keyword is one the format can carry.
   */
  lemma SaveThenLoad(categories: Categories)
    requires Savable(categories)
    ensures Load(FileText(categories)) == categories
  {
    var body := BodyLines(categories);
    BodyChars(categories);
    LoadSaved(categories);
    assert ParseFrom([], body) == categories by {
      ParseFromFold([], body);
      BodyEntries(categories, body);
      FoldFresh([], Parsed(body), categories);
    }
  }

  /**
   * Loading a saved file parses its category lines and nothing else, when
   * no category line holds a line break: the header contributes nothing.
   */
  lemma LoadSaved(categories: Categories)
    requires forall i :: 0 <= i < |categories| ==> NoBreaks(BodyLines(categories)[i])
    ensures Load(FileText(categories)) == ParseFrom([], BodyLines(categories))
  {
    var head := [Header1, Header2, ""];
    var body := BodyLines(categories);
    var lines := head + body;
    HeaderLines(head);
    forall i | 0 <= i < |lines| ensures NoBreaks(lines[i]) {
      if i >= |head| {
        assert lines[i] == body[i - |head|];
      } else {
        assert lines[i] == head[i];
      }
    }
    ReadBack(lines);
    ParseFromAppend([], head, body);
    assert ParseFrom([], head) == [] by {
      ParseFromFold([], head);
      HeaderParsed(head);
      FoldNone([], Parsed(head));
    }
  }

  /** A line with neither a newline nor a carriage return. */
  predicate NoBreaks(line: string)
  {
    '\n' !in line && '\r' !in line
  }

  /**
   * The name check of the category editor (fetcher.py:270-271): the input
   * line, stripped, accepted when it is not empty.
   */
  predicate EditorAccepts(name: string)
    ensures EditorAccepts(name) ==> name != [] && Strip(name) == name
  {
    && name != [] && IsStripped(name) && NoBreaks(name)
    && (StripStripped(name); true)
  }

  /**
   * A name with a colon does not survive a save and a load: the saved line
   * `a:b: ks` reads back as the category `a`, whose keywords come from the
   * text after the first colon.
   */
  lemma {:induction false} ColonNameSplits(a: string, b: string, keywords: seq<string>)
    requires IsName(a) && NoBreaks(b)
    requires keywords != [] && forall j :: 0 <= j < |keywords| ==> IsStorable(keywords[j])
    ensures Load(FileText([(a + [':'] + b, keywords)]))
         == [(a, ParseKeywords(b + ": " + Join(", ", keywords)))]
    ensures Load(FileText([(a + [':'] + b, keywords)])) != [(a + [':'] + b, keywords)]
  {
    var name := a + [':'] + b;
    var rest := b + ": " + Join(", ", keywords);
    var line := FormatLine(name, keywords);
    assert line == a + [':'] + rest;
    LoadOne(name, keywords);
    JoinLastChar(", ", keywords);
    StripStripped(line);
    CategoryLine(line, a, rest);
    assert |a| < |name|;
  }

  /** Loading a file saved with one category applies its one line to an empty dict. */
  lemma LoadOne(name: string, keywords: seq<string>)
    requires NoBreaks(name) && forall j :: 0 <= j < |keywords| ==> IsStorable(keywords[j])
    ensures Load(FileText([(name, keywords)])) == Assign([], FormatLine(name, keywords))
  {
    var cs: Categories := [(name, keywords)];
    var line := FormatLine(name, keywords);
    JoinNoChar(", ", keywords, '\n');
    JoinNoChar(", ", keywords, '\r');
    assert NoBreaks(line);
    assert BodyLines(cs) == [line];
    LoadSaved(cs);
    assert ParseFrom([], [line]) == Assign([], line) by {
      assert [line][1..] == [];
    }
  }

  /** A name starting with `#` does not survive a save and a load: its line reads back as a comment. */
  lemma HashNameVanishes(name: string, keywords: seq<string>)
    requires name != [] && name[0] == '#' && NoBreaks(name)
    requires keywords != [] && forall j :: 0 <= j < |keywords| ==> IsStorable(keywords[j])
    ensures Load(FileText([(name, keywords)])) == []
  {
    HashLineIgnored(name, keywords);
    LoadOne(name, keywords);
  }

  /** The category line of a name starting with `#` is read as a comment. */
  lemma HashLineIgnored(name: string, keywords: seq<string>)
    requires name != [] && name[0] == '#'
    requires keywords != [] && forall j :: 0 <= j < |keywords| ==> IsStorable(keywords[j])
    ensures Assign([], FormatLine(name, keywords)) == []
  {
    var line := FormatLine(name, keywords);
    var j := Join(", ", keywords);
    var last := keywords[|keywords| - 1];
    assert IsStorable(last);
    JoinLastChar(", ", keywords);
    assert line == name + (": " + j);
    assert line[0] == '#' && line[|line| - 1] == last[|last| - 1];
    HeaderLineIgnored(line);
  }

  /** The editor accepts `a:b`, and it does not survive a save and a load. */
  lemma ColonNameLost()
    ensures EditorAccepts("a:b") && Load(FileText([("a:b", ["k"])])) != [("a:b", ["k"])]
  {
    assert IsStorable("k") && IsName("a");
    assert "a" + [':'] + "b" == "a:b";
    ColonNameSplits("a", "b", ["k"]);
  }

  /** The editor accepts `#x`, and it vanishes in a save and a load. */
  lemma HashNameLost()
    ensures EditorAccepts("#x") && Load(FileText([("#x", ["k"])])) == []
  {
    assert IsStorable("k");
    HashNameVanishes("#x", ["k"]);
  }

  /** No category line of a saved file holds a line break. */
  lemma BodyChars(categories: Categories)
    requires Savable(categories)
    ensures forall i :: 0 <= i < |categories| ==> NoBreaks(BodyLines(categories)[i])
  {
    forall i | 0 <= i < |categories| ensures NoBreaks(BodyLines(categories)[i]) {
      LineChars(categories[i].0, categories[i].1);
    }
  }

  /** The first header line starts with `#` and ends in a letter. */
  lemma Header1Ends()
    ensures Header1 != [] && Header1[0] == '#' && Header1[|Header1| - 1] == 'e'
  {
  }

  /** The first header line holds no line break. */
  lemma Header1NoBreaks()
    ensures '\n' !in Header1 && '\r' !in Header1
  {
  }

  /** The second header line starts with `#` and ends in a dot. */
  lemma Header2Ends()
    ensures Header2 != [] && Header2[0] == '#' && Header2[|Header2| - 1] == '.'
  {
  }

  /** The second header line holds no line break. */
  lemma Header2NoBreaks()
    ensures '\n' !in Header2 && '\r' !in Header2
  {
    Header2NoNewline();
    Header2NoReturn();
  }

  lemma Header2NoNewline()
    ensures '\n' !in Header2
  {
  }

  lemma Header2NoReturn()
    ensures '\r' !in Header2
  {
  }

  /** The header lines: two comments that need no stripping, then an empty line. */
  lemma HeaderLines(head: seq<string>)
    requires head == [Header1, Header2, ""]
    ensures forall i :: 0 <= i < |head| ==> NoBreaks(head[i])
    ensures forall i :: 0 <= i < 2 ==> head[i] != [] && head[i][0] == '#' && !IsSpace(head[i][|head[i]| - 1])
    ensures head[2] == []
  {
    Header1Ends();
    Header1NoBreaks();
    Header2Ends();
    Header2NoBreaks();
  }

  /** Lines without line breaks, written one after the other, are read back as they were. */
  lemma ReadBack(lines: seq<string>)
    requires forall i :: 0 <= i < |lines| ==> NoBreaks(lines[i])
    ensures FileLines(Unlines(lines)) == lines
  {
    var t := Unlines(lines);
    UnlinesNoChar(lines, '\r');
    assert UniversalNewlines(t) == t;
    SplitUnlines(lines);
    var pieces := lines + [""];
    assert SplitOn(t, '\n') == pieces;
    assert pieces[|pieces| - 1] == [] && pieces[..|pieces| - 1] == lines;
  }

  /** Every category line of a saved file reads back as its category. */
  lemma BodyEntries(categories: Categories, body: seq<string>)
    requires Savable(categories)
    requires body == BodyLines(categories)
    ensures |Parsed(body)| == |categories|
    ensures forall i :: 0 <= i < |body| ==> Parsed(body)[i] == Some(categories[i])
  {
    forall i | 0 <= i < |body| ensures Parsed(body)[i] == Some(categories[i]) {
      ParseFormatLine(categories[i].0, categories[i].1);
    }
  }

  /** The header of a saved file holds no category line. */
  lemma HeaderParsed(head: seq<string>)
    requires |head| == 3 && head[2] == []
    requires forall i :: 0 <= i < 2 ==> head[i] != [] && head[i][0] == '#' && !IsSpace(head[i][|head[i]| - 1])
    ensures forall i :: 0 <= i < |head| ==> Parsed(head)[i].None?
  {
    forall i | 0 <= i < |head| ensures Parsed(head)[i].None? {
      if i < 2 {
        HeaderLineIgnored(head[i]);
      } else {
        BlankLineIgnored(head[i]);
      }
    }
  }

  /** The empty line is not a category line. */
  lemma BlankLineIgnored(line: string)
    requires line == []
    ensures ParseLine(line).None?
  {
    assert Strip(line) == [];
  }

  /** A line that starts with `#` and does not end in whitespace is not a category line. */
  lemma HeaderLineIgnored(line: string)
    requires line != [] && line[0] == '#' && !IsSpace(line[|line| - 1])
    ensures ParseLine(line).None?
  {
    StripStripped(line);
  }

  /**
   * A line that strips to text starting with `#` is a comment, whatever
   * follows the `#`: it leaves the dict as it was.
   */
  lemma CommentIgnored(acc: Categories, line: string)
    requires StartsWith(Strip(line), '#')
    ensures ParseLine(line).None?
    ensures Assign(acc, line) == acc
  {
  }

  /** A comment line indented by whitespace is still a comment. */
  lemma IndentedComment(acc: Categories, c: char, line: string)
    requires IsSpace(c) && IsStripped(line) && StartsWith(line, '#')
    ensures Assign(acc, [c] + line) == acc
  {
    StripAfterSpace(c, line);
  }

  lemma LineChars(name: string, keywords: seq<string>)
    requires IsName(name) && forall j :: 0 <= j < |keywords| ==> IsStorable(keywords[j])
    ensures NoBreaks(FormatLine(name, keywords))
  {
    JoinNoChar(", ", keywords, '\n');
    JoinNoChar(", ", keywords, '\r');
  }

  lemma {:induction false} UnlinesNoChar(lines: seq<string>, c: char)
    requires c != '\n'
    requires forall i :: 0 <= i < |lines| ==> c !in lines[i]
    ensures c !in Unlines(lines)
    decreases |lines|
  {
    if lines != [] {
      UnlinesNoChar(lines[1..], c);
    }
  }

  /** Splitting lines written one after the other at their newlines: the final newline leaves an empty last piece, which `FileLines` drops. */
  lemma {:induction false} SplitUnlines(lines: seq<string>)
    requires forall i :: 0 <= i < |lines| ==> '\n' !in lines[i]
    ensures SplitOn(Unlines(lines), '\n') == lines + [""]
    decreases |lines|
  {
    if lines != [] {
      var rest := Unlines(lines[1..]);
      assert Unlines(lines) == lines[0] + ['\n'] + rest;
      SplitOnFirst(lines[0], '\n', rest);
      SplitUnlines(lines[1..]);
      assert [lines[0]] + (lines[1..] + [""]) == lines + [""];
    }
  }

  /** Entries for distinct new names add their categories after `acc`. */
  lemma {:induction false} FoldFresh(acc: Categories, ps: seq<Option<Entry>>, categories: Categories)
    requires |ps| == |categories| && UniqueKeys(categories)
    requires forall i :: 0 <= i < |ps| ==> ps[i] == Some(categories[i])
    requires forall i :: 0 <= i < |categories| ==> categories[i].0 !in Keys(acc)
    ensures Fold(acc, ps) == acc + categories
    decreases |ps|
  {
    if ps == [] {
      assert acc + categories == acc;
    } else {
      var e := categories[0];
      var acc' := acc + [e];
      assert Apply(acc, ps[0]) == acc' by {
        PutNew(acc, e.0, e.1);
      }
      FreshTail(acc, categories);
      EntriesTail(ps, categories);
      FoldFresh(acc', ps[1..], categories[1..]);
      assert acc' + categories[1..] == acc + categories by {
        assert categories == [e] + categories[1..];
      }
    }
  }

  /** Dropping the first entry keeps the entries lined up with the categories. */
  lemma EntriesTail(ps: seq<Option<Entry>>, categories: Categories)
    requires |ps| == |categories| && ps != []
    requires forall i :: 0 <= i < |ps| ==> ps[i] == Some(categories[i])
    ensures forall i :: 0 <= i < |ps| - 1 ==> ps[1..][i] == Some(categories[1..][i])
  {
    forall i | 0 <= i < |ps| - 1 ensures ps[1..][i] == Some(categories[1..][i]) {
      assert ps[1..][i] == ps[i + 1];
    }
  }

  /** The later names are still new once the first category is in. */
  lemma FreshTail(acc: Categories, categories: Categories)
    requires UniqueKeys(categories) && categories != []
    requires forall i :: 0 <= i < |categories| ==> categories[i].0 !in Keys(acc)
    ensures UniqueKeys(categories[1..])
    ensures forall i :: 0 <= i < |categories| - 1 ==> categories[1..][i].0 !in Keys(acc + [categories[0]])
  {
    var rest := categories[1..];
    TailUnique(categories);
    var acc' := acc + [categories[0]];
    assert Keys(acc') == Keys(acc) + [categories[0].0];
    forall i | 0 <= i < |rest| ensures rest[i].0 !in Keys(acc') {
      assert rest[i] == categories[i + 1];
      assert Keys(rest)[i] == rest[i].0;
    }
  }

  /** A saved category line reads back as the same category and keywords. */
  lemma ParseFormatLine(name: string, keywords: seq<string>)
    requires IsName(name) && forall j :: 0 <= j < |keywords| ==> IsStorable(keywords[j])
    ensures ParseLine(FormatLine(name, keywords)) == Some((name, keywords))
  {
    var line := FormatLine(name, keywords);
    if keywords == [] {
      assert line == (name + [':']) + [' '];
      StripBeforeSpace(name + [':'], ' ');
      assert Strip(line) == name + [':'] + [];
      CategoryLine(line, name, []);
      assert ParseKeywords([]) == [] by {
        assert Strip([]) == [];
        assert KeepKeywords([[]]) == [];
      }
    } else {
      var rest := " " + Join(", ", keywords);
      assert line == name + [':'] + rest;
      JoinLastChar(", ", keywords);
      StripStripped(line);
      CategoryLine(line, name, rest);
      KeywordsReadBack(keywords);
    }
  }

  /** A line that strips to `name:rest` with a plain name is the category line for `name`. */
  /**
   * Any non-comment line, split at its first colon after stripping, gives the
   * stripped text before the colon and the keywords after it: `Tech : py`
   * gives `Tech`, and `: py` gives the empty category name.
   */
  lemma ParseLineSplit(line: string, before: string, after: string)
    requires Strip(line) == before + [':'] + after && ':' !in before
    requires !StartsWith(Strip(line), '#')
    ensures ParseLine(line) == Some((Strip(before), ParseKeywords(after)))
  {
    SplitOnceFirst(before, ':', after);
  }

  lemma CategoryLine(line: string, name: string, rest: string)
    requires Strip(line) == name + [':'] + rest
    requires name != [] && name[0] != '#' && ':' !in name && IsStripped(name)
    ensures ParseLine(line) == Some((name, ParseKeywords(rest)))
  {
    SplitOnceFirst(name, ':', rest);
    StripStripped(name);
  }

  /** The keywords part of a saved line as the split on commas sees it. */
  function Spaced(keywords: seq<string>): (r: seq<string>)
    ensures |r| == |keywords| && forall i :: 0 <= i < |r| ==> r[i] == " " + keywords[i]
  {
    seq(|keywords|, i requires 0 <= i < |keywords| => " " + keywords[i])
  }

  lemma {:induction false} JoinSpaced(keywords: seq<string>)
    requires keywords != []
    ensures " " + Join(", ", keywords) == Join([','], Spaced(keywords))
    decreases |keywords|
  {
    if |keywords| > 1 {
      JoinSpaced(keywords[1..]);
      assert Spaced(keywords)[1..] == Spaced(keywords[1..]);
      assert " " + (keywords[0] + ", " + Join(", ", keywords[1..]))
          == (" " + keywords[0]) + [','] + (" " + Join(", ", keywords[1..]));
    }
  }

  lemma {:induction false} KeepSpaced(keywords: seq<string>)
    requires forall j :: 0 <= j < |keywords| ==> IsKeyword(keywords[j])
    ensures KeepKeywords(Spaced(keywords)) == keywords
    decreases |keywords|
  {
    if keywords != [] {
      StripAfterSpace(' ', keywords[0]);
      assert Spaced(keywords)[1..] == Spaced(keywords[1..]);
      KeepSpaced(keywords[1..]);
    }
  }

  /** `", ".join(keywords)` after the colon and its space reads back as the keywords. */
  lemma KeywordsReadBack(keywords: seq<string>)
    requires keywords != []
    requires forall j :: 0 <= j < |keywords| ==> IsKeyword(keywords[j])
    ensures ParseKeywords(" " + Join(", ", keywords)) == keywords
  {
    JoinSpaced(keywords);
    forall i | 0 <= i < |keywords| ensures ',' !in Spaced(keywords)[i] {
      assert Spaced(keywords)[i] == [' '] + keywords[i];
    }
    SplitJoin(Spaced(keywords), ',');
    KeepSpaced(keywords);
  }
}
