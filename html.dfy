/** `cleanHtmlMessage`: strip tags, decode a fixed entity table, then
    normalise whitespace. The string operations it calls (`replace` with a
    global regular expression, `trim`) are specification functions here; the
    message cleaner itself, which rebinds its result step by step, is the
    method `CleanHtmlMessage`, proved equal to the pure pipeline `Clean`. */
module Html {

  // ---------------------------------------------------------------------
  // Whitespace: the `\s` class of JavaScript regular expressions, which is
  // also what `String.prototype.trim` removes (WhiteSpace and
  // LineTerminator code points).
  // ---------------------------------------------------------------------

  predicate IsSpace(c: char): (b: bool)
    ensures c as int < 0x80 ==> (b <==> c == ' ' || '\t' <= c <= '\r')
    ensures b ==> c == ' ' || c as int <= 0x0D || c as int >= 0xA0
  {
    || c == '\t' || c == '\n' || c == '\U{B}' || c == '\U{C}' || c == '\r'
    || c == ' ' || c == '\U{A0}' || c == '\U{1680}'
    || ('\U{2000}' <= c <= '\U{200A}')
    || c == '\U{2028}' || c == '\U{2029}' || c == '\U{202F}' || c == '\U{205F}'
    || c == '\U{3000}' || c == '\U{FEFF}'
  }

  /** Every whitespace character of `s` is a plain space. */
  predicate SpacesOnly(s: string) {
    forall i :: 0 <= i < |s| && IsSpace(s[i]) ==> s[i] == ' '
  }

  /** No two adjacent whitespace characters. */
  predicate NoDoubleSpace(s: string) {
    forall i :: 0 <= i < |s| - 1 ==> !IsSpace(s[i]) || !IsSpace(s[i + 1])
  }

  /** Neither the first nor the last character is whitespace. */
  predicate Trimmed(s: string) {
    s == [] || (!IsSpace(s[0]) && !IsSpace(s[|s| - 1]))
  }

  /** Every character of `s` is whitespace. */
  predicate AllSpace(s: string) {
    forall i :: 0 <= i < |s| ==> IsSpace(s[i])
  }

  /** `s` begins with a non-whitespace character. */
  predicate StartsWord(s: string) {
    s != [] && !IsSpace(s[0])
  }

  /** A non-empty run of non-whitespace characters. */
  predicate IsWord(w: string) {
    w != [] && forall j :: 0 <= j < |w| ==> !IsSpace(w[j])
  }

  /** The words of `s`: its maximal runs of non-whitespace characters, in
      order. Whitespace only separates them. */
  function Words(s: string): (ws: seq<string>)
    ensures StartsWord(s) ==> ws != []
    decreases |s|
  {
    if s == [] then []
    else
      var rest := Words(s[1..]);
      if IsSpace(s[0]) then rest
      else if StartsWord(s[1..]) then [[s[0]] + rest[0]] + rest[1..]
      else [[s[0]]] + rest
  }

  /** Every word is a non-empty run of non-whitespace characters. */
  lemma {:induction false} WordsAreWords(s: string)
    ensures forall i :: 0 <= i < |Words(s)| ==> IsWord(Words(s)[i])
    decreases |s|
  {
    if s != [] {
      WordsAreWords(s[1..]);
      var rest := Words(s[1..]);
      if !IsSpace(s[0]) && StartsWord(s[1..]) {
        var w := [s[0]] + rest[0];
        assert IsWord(rest[0]);
        assert forall j :: 1 <= j < |w| ==> w[j] == rest[0][j - 1];
        assert IsWord(w);
      }
    }
  }

  /** The words joined by single spaces. */
  function Join(ws: seq<string>): string {
    if ws == [] then []
    else if |ws| == 1 then ws[0]
    else ws[0] + (" " + Join(ws[1..]))
  }

  /** One space where `s` has leading whitespace. */
  function Lead(s: string): string {
    if s != [] && IsSpace(s[0]) then " " else ""
  }

  /** One space where `s` has trailing whitespace after some word. */
  function Trail(s: string): string {
    if s != [] && IsSpace(s[|s| - 1]) && Words(s) != [] then " " else ""
  }

  /** The words of `[c] + x` from those of `x`. */
  lemma WordsCons(c: char, x: string)
    ensures Words([c] + x) ==
      if IsSpace(c) then Words(x)
      else if StartsWord(x) then [[c] + Words(x)[0]] + Words(x)[1..]
      else [[c]] + Words(x)
  {
    assert ([c] + x)[1..] == x;
  }

  /** Two tails with the same words and the same first-character class give
      the same words under any first character. */
  lemma WordsConsCongruent(c: char, x: string, y: string)
    requires Words(x) == Words(y) && StartsWord(x) == StartsWord(y)
    ensures Words([c] + x) == Words([c] + y)
  {
    WordsCons(c, x);
    WordsCons(c, y);
  }

  /** Leading whitespace adds no word. */
  lemma {:induction false} WordsSpacePrefix(a: string, y: string)
    requires AllSpace(a)
    ensures Words(a + y) == Words(y)
  {
    if a == [] {
      assert a + y == y;
    } else {
      assert a + y == [a[0]] + (a[1..] + y);
      WordsCons(a[0], a[1..] + y);
      WordsSpacePrefix(a[1..], y);
    }
  }

  /** Trailing whitespace adds no word. */
  lemma {:induction false} WordsSpaceSuffix(y: string, b: string)
    requires AllSpace(b)
    ensures Words(y + b) == Words(y)
    ensures StartsWord(y + b) == StartsWord(y)
  {
    if y == [] {
      assert y + b == b && b + [] == b;
      WordsSpacePrefix(b, []);
    } else {
      assert y + b == [y[0]] + (y[1..] + b);
      assert y == [y[0]] + y[1..];
      WordsSpaceSuffix(y[1..], b);
      WordsConsCongruent(y[0], y[1..] + b, y[1..]);
    }
  }

  /** A word followed by text that does not start a word is a word of its
      own. */
  lemma {:induction false} WordThen(w: string, y: string)
    requires IsWord(w) && !StartsWord(y)
    ensures Words(w + y) == [w] + Words(y)
  {
    var c, t := w[0], w[1..];
    assert w + y == [c] + (t + y);
    WordsCons(c, t + y);
    if t == [] {
      assert t + y == y;
    } else {
      assert IsWord(t);
      WordThen(t, y);
      assert StartsWord(t + y);
      assert [c] + t == w;
    }
  }

  /** Splitting joined words gives them back. */
  lemma {:induction false} WordsOfJoin(ws: seq<string>)
    requires forall i :: 0 <= i < |ws| ==> IsWord(ws[i])
    ensures Words(Join(ws)) == ws
  {
    if |ws| == 1 {
      assert ws[0] + [] == ws[0];
      WordThen(ws[0], []);
    } else if |ws| > 1 {
      var rest := Join(ws[1..]);
      WordsOfJoin(ws[1..]);
      WordsCons(' ', rest);
      WordThen(ws[0], " " + rest);
      assert [ws[0]] + ws[1..] == ws;
    }
  }

  /** Joining a first word and the rest. */
  lemma JoinCons(w: string, ws: seq<string>)
    ensures Join([w] + ws) == if ws == [] then w else w + (" " + Join(ws))
  {
    assert ([w] + ws)[0] == w && ([w] + ws)[1..] == ws;
  }

  /** Putting a character in front of the first word. */
  lemma JoinConsChar(c: char, w: string, ws: seq<string>)
    ensures Join([[c] + w] + ws) == [c] + Join([w] + ws)
  {
    JoinCons([c] + w, ws);
    JoinCons(w, ws);
    if ws != [] {
      var tail := " " + Join(ws);
      assert ([c] + w) + tail == [c] + (w + tail);
    }
  }

  /** Text whose whitespace is single spaces is its words joined by single
      spaces, with one space before them if it starts with whitespace and
      one after them if it ends with whitespace. */
  lemma {:induction false} SingleSpacedIsJoinedWords(r: string)
    requires SpacesOnly(r) && NoDoubleSpace(r)
    ensures r == Lead(r) + (Join(Words(r)) + Trail(r))
  {
    if r != [] {
      var c, t := r[0], r[1..];
      assert r == [c] + t;
      assert SpacesOnly(t) && NoDoubleSpace(t);
      SingleSpacedIsJoinedWords(t);
      assert IsSpace(c) ==> c == ' ' && (!StartsWord(t) ==> t == []) by {
        if IsSpace(c) && t != [] { assert r[1] == t[0]; }
      }
      if IsSpace(c) {
        SpaceThenJoined(t);
      } else {
        CharThenJoined(c, t);
      }
    }
  }

  /** One space in front of text that does not start with whitespace. */
  lemma SpaceThenJoined(t: string)
    requires t == Lead(t) + (Join(Words(t)) + Trail(t))
    requires !StartsWord(t) ==> t == []
    ensures " " + t == Lead(" " + t) + (Join(Words(" " + t)) + Trail(" " + t))
  {
    WordsCons(' ', t);
    if t != [] {
      assert (" " + t)[|t|] == t[|t| - 1];
    }
  }

  /** A non-whitespace character in front of single-spaced text. */
  lemma CharThenJoined(c: char, t: string)
    requires !IsSpace(c)
    requires t == Lead(t) + (Join(Words(t)) + Trail(t))
    ensures [c] + t == Lead([c] + t) + (Join(Words([c] + t)) + Trail([c] + t))
  {
    var r := [c] + t;
    WordsCons(c, t);
    var w := Words(t);
    if t == [] {
      assert Words(r) == [[c]];
    } else if IsSpace(t[0]) {
      assert Words(r) == [[c]] + w;
      assert r[|r| - 1] == t[|t| - 1];
      if w == [] {
        assert t == " ";
      } else {
        var v := [[c]] + w;
        assert v[1..] == w;
      }
    } else {
      assert w == [w[0]] + w[1..];
      JoinConsChar(c, w[0], w[1..]);
      assert r[|r| - 1] == t[|t| - 1];
    }
  }

  /** Length of the whitespace run that starts `s`. */
  function SpaceRun(s: string): (n: nat)
    ensures n <= |s|
    ensures forall i :: 0 <= i < n ==> IsSpace(s[i])
    ensures n < |s| ==> !IsSpace(s[n])
  {
    if s != [] && IsSpace(s[0]) then 1 + SpaceRun(s[1..]) else 0
  }

  /** Length of the whitespace run that ends `s`. */
  function SpaceRunEnd(s: string): (n: nat)
    ensures n <= |s|
    ensures forall i :: |s| - n <= i < |s| ==> IsSpace(s[i])
    ensures n < |s| ==> !IsSpace(s[|s| - n - 1])
  {
    if s != [] && IsSpace(s[|s| - 1]) then 1 + SpaceRunEnd(s[..|s| - 1]) else 0
  }

  // ---------------------------------------------------------------------
  // Step 1: `replace(/<[^>]*>/g, "")`
  // ---------------------------------------------------------------------

  /** After tag stripping: no `<` is followed, anywhere later, by a `>`. */
  predicate NoTagLeft(s: string) {
    forall i, j :: 0 <= i < j < |s| && s[i] == '<' ==> s[j] != '>'
  }

  /** Position of the first `c` in `s`. */
  function IndexOf(s: string, c: char): (k: nat)
    requires c in s
    ensures k < |s| && s[k] == c && c !in s[..k]
  {
    if s[0] == c then 0 else 1 + IndexOf(s[1..], c)
  }

  /** The global replacement scans left to right: a `<` with some `>` after
      it starts a match that ends at the first such `>` and is deleted; a
      `<` with no `>` after it, and every other character, is kept. */
  function StripTags(s: string): (r: string)
    ensures |r| <= |s|
    ensures forall c :: c in r ==> c in s
    ensures NoTagLeft(r)
    ensures '<' !in s ==> r == s
    ensures '>' !in s ==> r == s
    decreases |s|
  {
    if s == [] then []
    else if s[0] == '<' && '>' in s[1..] then
      StripTags(s[IndexOf(s[1..], '>') + 2..])
    else
      var rest := StripTags(s[1..]);
      assert s[0] == '<' ==> '>' !in rest;
      [s[0]] + rest
  }

  // ---------------------------------------------------------------------
  // Step 2: `replace(new RegExp(entity, "g"), character)` per table entry
  // ---------------------------------------------------------------------

  /** Replace every occurrence of `pat`, matched left to right without
      overlap, by `rep`. The table's patterns hold no regular-expression
      metacharacters and its replacements no `$`, so the regular expression
      matches the literal text and the replacement is inserted as is. */
  function ReplaceAll(s: string, pat: string, rep: string): (r: string)
    requires pat != []
    ensures |rep| <= |pat| ==> |r| <= |s|
    ensures pat[0] !in s ==> r == s
    decreases |s|
  {
    if |s| < |pat| then s
    else if s[..|pat|] == pat then rep + ReplaceAll(s[|pat|..], pat, rep)
    else [s[0]] + ReplaceAll(s[1..], pat, rep)
  }

  /** `htmlEntities` in the order of its keys. */
  const Entities: seq<(string, string)> := [
    ("&amp;", "&"), ("&lt;", "<"), ("&gt;", ">"), ("&quot;", "\""),
    ("&#39;", "'"), ("&nbsp;", " "), ("&apos;", "'"), ("&cent;", "¢"),
    ("&pound;", "£"), ("&yen;", "¥"), ("&euro;", "€"), ("&copy;", "©"),
    ("&reg;", "®")]

  /** Each entry's pattern starts with `&` and is longer than its
      replacement. */
  predicate EntityTable(table: seq<(string, string)>) {
    forall i :: 0 <= i < |table| ==>
      table[i].0 != [] && table[i].0[0] == '&' && |table[i].1| < |table[i].0|
  }

  lemma EntitiesWellFormed()
    ensures EntityTable(Entities)
  {
  }

  /** One global replacement per entry, in table order: a left fold. */
  function DecodeWith(s: string, table: seq<(string, string)>): (r: string)
    requires EntityTable(table)
    ensures |r| <= |s|
    ensures '&' !in s ==> r == s
    decreases |table|
  {
    if table == [] then s
    else DecodeWith(ReplaceAll(s, table[0].0, table[0].1), table[1..])
  }

  /** The passes from table entry `k` on. */
  function DecodeFrom(s: string, k: nat): (r: string)
    requires k <= |Entities|
    ensures |r| <= |s|
    ensures '&' !in s ==> r == s
  {
    EntitiesWellFormed();
    DecodeWith(s, Entities[k..])
  }

  lemma DecodeFromStep(s: string, k: nat)
    requires k < |Entities|
    ensures DecodeFrom(s, k) == DecodeFrom(ReplaceAll(s, Entities[k].0, Entities[k].1), k + 1)
  {
    EntitiesWellFormed();
    assert Entities[k..][0] == Entities[k];
    assert Entities[k..][1..] == Entities[k + 1..];
  }

  lemma DecodeFromEnd(s: string)
    ensures DecodeFrom(s, |Entities|) == s
  {
    EntitiesWellFormed();
    assert Entities[|Entities|..] == [];
  }

  /** The table facts the decoding lemmas use: each name is `&`, at least
      three more characters and no other `&`; each replacement is one
      character, `&` only for `&amp;`; and the two characters after `&` tell
      the names apart. */
  lemma EntityTableFacts()
    ensures forall i :: 0 <= i < |Entities| ==>
      |Entities[i].0| >= 4 && Entities[i].0[0] == '&' && '&' !in Entities[i].0[1..]
      && |Entities[i].1| == 1
    ensures forall i :: 1 <= i < |Entities| ==> '&' !in Entities[i].1
    ensures Entities[0] == ("&amp;", "&")
    ensures forall i, j :: 0 <= i < |Entities| && 0 <= j < |Entities| && i != j ==>
      Entities[i].0[1] != Entities[j].0[1] || Entities[i].0[2] != Entities[j].0[2]
  {
    EntityShapes();
    EntityNamesDistinct();
  }

  lemma EntityShapes()
    ensures forall i :: 0 <= i < |Entities| ==>
      |Entities[i].0| >= 4 && Entities[i].0[0] == '&' && '&' !in Entities[i].0[1..]
      && |Entities[i].1| == 1
    ensures forall i :: 1 <= i < |Entities| ==> '&' !in Entities[i].1
    ensures Entities[0] == ("&amp;", "&")
  {
  }

  lemma EntityNamesDistinct()
    ensures forall i, j :: 0 <= i < |Entities| && 0 <= j < |Entities| && i != j ==>
      Entities[i].0[1] != Entities[j].0[1] || Entities[i].0[2] != Entities[j].0[2]
  {
  }

  /** No entity name is a prefix of another. */
  lemma EntityNamesPrefixFree(i: nat, j: nat)
    requires i < |Entities| && j < |Entities| && i != j
    ensures !(Entities[i].0 <= Entities[j].0)
  {
    EntityTableFacts();
  }

  /** A match can only start at the pattern's first character. */
  lemma {:induction false} ReplaceAllPlainPrefix(a: string, y: string, pat: string, rep: string)
    requires pat != [] && pat[0] !in a
    ensures ReplaceAll(a + y, pat, rep) == a + ReplaceAll(y, pat, rep)
  {
    if a == [] {
      assert a + y == y;
    } else if |a + y| < |pat| {
      assert ReplaceAll(a + y, pat, rep) == a + y;
      assert ReplaceAll(y, pat, rep) == y;
    } else {
      SplitHead(a, y);
      assert (a + y)[..|pat|] != pat by { assert (a + y)[..|pat|][0] == a[0]; }
      ReplaceAllKeepsHead(a[0], a[1..] + y, pat, rep);
      ReplaceAllPlainPrefix(a[1..], y, pat, rep);
      SplitHead(a, ReplaceAll(y, pat, rep));
    }
  }

  /** Splitting off the first character. */
  lemma SplitHead(a: string, y: string)
    requires a != []
    ensures a == [a[0]] + a[1..] && a + y == [a[0]] + (a[1..] + y)
    ensures forall c :: c in a[1..] ==> c in a
  {
  }

  /** A prefix `t` that starts like the pattern but neither contains it at
      its start nor is a prefix of it cannot begin a match. */
  lemma ReplaceAllClosedPrefix(t: string, y: string, pat: string, rep: string)
    requires pat != [] && t != [] && pat[0] !in t[1..]
    requires !(pat <= t) && !(t <= pat)
    ensures ReplaceAll(t + y, pat, rep) == t + ReplaceAll(y, pat, rep)
  {
    if |t + y| < |pat| {
      assert ReplaceAll(t + y, pat, rep) == t + y;
      assert ReplaceAll(y, pat, rep) == y;
    } else {
      NoMatchAcrossPrefix(t, y, pat);
      SplitHead(t, y);
      ReplaceAllSkipFirst(t[0], t[1..], y, pat, rep);
      SplitHead(t, ReplaceAll(y, pat, rep));
    }
  }

  lemma ReplaceAllSkipFirst(c: char, a: string, y: string, pat: string, rep: string)
    requires pat != [] && pat[0] !in a
    requires |[c] + (a + y)| >= |pat| && ([c] + (a + y))[..|pat|] != pat
    ensures ReplaceAll([c] + (a + y), pat, rep) == [c] + (a + ReplaceAll(y, pat, rep))
  {
    ReplaceAllKeepsHead(c, a + y, pat, rep);
    ReplaceAllPlainPrefix(a, y, pat, rep);
  }

  /** No match at the first position: that character is kept. */
  lemma ReplaceAllKeepsHead(c: char, rest: string, pat: string, rep: string)
    requires pat != [] && |[c] + rest| >= |pat| && ([c] + rest)[..|pat|] != pat
    ensures ReplaceAll([c] + rest, pat, rep) == [c] + ReplaceAll(rest, pat, rep)
  {
    assert ([c] + rest)[1..] == rest;
  }

  lemma NoMatchAcrossPrefix(t: string, y: string, pat: string)
    requires !(pat <= t) && !(t <= pat) && |t + y| >= |pat|
    ensures (t + y)[..|pat|] != pat
  {
    if |t| >= |pat| {
      assert (t + y)[..|pat|] == t[..|pat|];
    } else {
      assert (t + y)[..|pat|][..|t|] == t;
    }
  }

  /** A match at the start is replaced and the scan goes on after it. */
  lemma ReplaceAllMatchPrefix(y: string, pat: string, rep: string)
    requires pat != []
    ensures ReplaceAll(pat + y, pat, rep) == rep + ReplaceAll(y, pat, rep)
  {
    assert (pat + y)[..|pat|] == pat;
    assert (pat + y)[|pat|..] == y;
  }

  /** Text without `&` is never touched by decoding, whatever follows it. */
  lemma {:induction false} DecodePlainPrefix(a: string, y: string, k: nat)
    requires k <= |Entities| && '&' !in a
    ensures DecodeFrom(a + y, k) == a + DecodeFrom(y, k)
    decreases |Entities| - k
  {
    if k < |Entities| {
      EntityTableFacts();
      DecodeFromStep(a + y, k);
      DecodeFromStep(y, k);
      ReplaceAllPlainPrefix(a, y, Entities[k].0, Entities[k].1);
      DecodePlainPrefix(a, ReplaceAll(y, Entities[k].0, Entities[k].1), k + 1);
    }
  }

  /** A table entity other than `&amp;` decodes to its character, whatever
      follows it; passes before its own entry leave it alone. */
  lemma {:induction false} EntityDecodes(i: nat, y: string, k: nat)
    requires 1 <= i < |Entities| && k <= i
    ensures DecodeFrom(Entities[i].0 + y, k) == Entities[i].1 + DecodeFrom(y, k)
    decreases i - k
  {
    EntityTableFacts();
    var (name, ch) := Entities[i];
    DecodeFromStep(name + y, k);
    DecodeFromStep(y, k);
    var y' := ReplaceAll(y, Entities[k].0, Entities[k].1);
    if k == i {
      ReplaceAllMatchPrefix(y, name, ch);
      DecodePlainPrefix(ch, y', k + 1);
    } else {
      EntityNamesPrefixFree(i, k);
      EntityNamesPrefixFree(k, i);
      ReplaceAllClosedPrefix(name, y, Entities[k].0, Entities[k].1);
      EntityDecodes(i, y', k + 1);
    }
  }

  /** A `&` followed by `&`-free text that no table name matches stays. */
  lemma {:induction false} AmpKept(t: string, k: nat)
    requires k <= |Entities| && t != [] && t[0] == '&' && '&' !in t[1..]
    requires forall j :: k <= j < |Entities| ==> !(Entities[j].0 <= t)
    ensures DecodeFrom(t, k) == t
    decreases |Entities| - k
  {
    if k < |Entities| {
      EntityTableFacts();
      var pat := Entities[k].0;
      DecodeFromStep(t, k);
      if |t| >= |pat| {
        assert t[..|pat|] != pat;
        assert t == [t[0]] + t[1..];
        ReplaceAllPlainPrefix([], t[1..], pat, Entities[k].1);
      }
      assert ReplaceAll(t, pat, Entities[k].1) == t;
      AmpKept(t, k + 1);
    }
  }

  /** `&amp;` decodes to `&`; when what follows has no `&` and does not
      complete another table name, nothing further changes. */
  lemma AmpDecodes(y: string)
    requires '&' !in y
    requires forall j :: 0 <= j < |Entities| ==> !(Entities[j].0 <= "&" + y)
    ensures DecodeFrom("&amp;" + y, 0) == "&" + y
  {
    EntityTableFacts();
    DecodeFromStep("&amp;" + y, 0);
    ReplaceAllMatchPrefix(y, "&amp;", "&");
    AmpKept("&" + y, 1);
  }

  /** An `&`-sequence that is neither a table name, nor starts with one, nor
      starts one is left as is, whatever follows it. */
  lemma {:induction false} UnknownEntityKept(t: string, y: string, k: nat)
    requires k <= |Entities| && t != [] && t[0] == '&' && '&' !in t[1..]
    requires forall j :: 0 <= j < |Entities| ==> !(Entities[j].0 <= t) && !(t <= Entities[j].0)
    ensures DecodeFrom(t + y, k) == t + DecodeFrom(y, k)
    decreases |Entities| - k
  {
    if k < |Entities| {
      EntityTableFacts();
      DecodeFromStep(t + y, k);
      DecodeFromStep(y, k);
      ReplaceAllClosedPrefix(t, y, Entities[k].0, Entities[k].1);
      UnknownEntityKept(t, ReplaceAll(y, Entities[k].0, Entities[k].1), k + 1);
    }
  }

  // ---------------------------------------------------------------------
  // Step 3: `replace(/\n\s*\n/g, "\n")`, `replace(/\s+/g, " ")`, `trim()`
  // ---------------------------------------------------------------------

  /** Position of the last `c` in `s`. */
  function LastIndexOf(s: string, c: char): (k: nat)
    requires c in s
    ensures k < |s| && s[k] == c && c !in s[k + 1..]
  {
    if s[|s| - 1] == c then |s| - 1 else LastIndexOf(s[..|s| - 1], c)
  }

  /** Where a match of `\n\s*\n` that starts `s` ends, or 0 when none
      does: there is one when `s` starts with `\n` and the whitespace run
      after it holds another `\n`, and it ends just after the last `\n` of
      that run. */
  function BlankLineMatch(s: string): (k: nat)
    ensures k == 0 <==> !(s != [] && s[0] == '\n' && '\n' in s[1..1 + SpaceRun(s[1..])])
    ensures k != 0 ==> 2 <= k <= |s| && s[k - 1] == '\n' && AllSpace(s[..k])
  {
    if s != [] && s[0] == '\n' && '\n' in s[1..1 + SpaceRun(s[1..])] then
      var run := s[1..1 + SpaceRun(s[1..])];
      var j := LastIndexOf(run, '\n');
      assert forall i :: 1 <= i < j + 2 ==> s[i] == run[i - 1];
      j + 2
    else 0
  }

  /** A match of `\n\s*\n` at a `\n`: the greedy `\s*` takes the whole
      whitespace run after it and gives back characters until the next one
      is a `\n`, so the match ends at the last `\n` of that run. No second
      `\n` in the run: no match there, and the `\n` is kept. Only whitespace
      is removed: the words stay, and so do the first and last characters. */
  function CollapseBlankLines(s: string): (r: string)
    ensures |r| <= |s|
    ensures s != [] ==> r != [] && r[0] == s[0] && r[|r| - 1] == s[|s| - 1]
    decreases |s|
  {
    if s == [] then []
    else if BlankLineMatch(s) != 0 then
      var k := BlankLineMatch(s);
      var rest := CollapseBlankLines(s[k..]);
      assert rest == [] ==> k == |s|;
      assert rest != [] ==> rest[|rest| - 1] == s[k..][|s[k..]| - 1] == s[|s| - 1];
      "\n" + rest
    else
      var rest := CollapseBlankLines(s[1..]);
      assert rest != [] ==> rest[|rest| - 1] == s[1..][|s| - 2] == s[|s| - 1];
      [s[0]] + rest
  }

  /** The blank-line pass removes only whitespace: the words stay. */
  lemma {:induction false} CollapseBlankLinesKeepsWords(s: string)
    ensures Words(CollapseBlankLines(s)) == Words(s)
    decreases |s|
  {
    if s == [] {
    } else if BlankLineMatch(s) != 0 {
      var k := BlankLineMatch(s);
      CollapseBlankLinesKeepsWords(s[k..]);
      MatchKeepsWords(s, k, CollapseBlankLines(s[k..]));
      assert CollapseBlankLines(s) == "\n" + CollapseBlankLines(s[k..]);
    } else {
      var rest := CollapseBlankLines(s[1..]);
      CollapseBlankLinesKeepsWords(s[1..]);
      assert s == [s[0]] + s[1..];
      WordsConsCongruent(s[0], rest, s[1..]);
      assert CollapseBlankLines(s) == [s[0]] + rest;
    }
  }

  /** A whitespace prefix replaced by one `\n` keeps the words. */
  lemma MatchKeepsWords(s: string, k: nat, rest: string)
    requires k <= |s| && AllSpace(s[..k])
    requires Words(rest) == Words(s[k..])
    ensures Words("\n" + rest) == Words(s)
  {
    assert s == s[..k] + s[k..];
    WordsSpacePrefix(s[..k], s[k..]);
    WordsCons('\n', rest);
  }

  /** Every maximal whitespace run becomes one space: the words stay, with
      single spaces between them, and a space stands first (last) exactly
      when whitespace did. */
  function CollapseSpaces(s: string): (r: string)
    ensures |r| <= |s|
    ensures SpacesOnly(r) && NoDoubleSpace(r)
    ensures s != [] ==> (r != []
      && (IsSpace(r[0]) <==> IsSpace(s[0]))
      && (IsSpace(r[|r| - 1]) <==> IsSpace(s[|s| - 1])))
    decreases |s|
  {
    if s == [] then []
    else if IsSpace(s[0]) then
      var t := s[SpaceRun(s)..];
      assert t != [] ==> t[|t| - 1] == s[|s| - 1];
      " " + CollapseSpaces(t)
    else
      var t := s[1..];
      assert t != [] ==> t[|t| - 1] == s[|s| - 1];
      [s[0]] + CollapseSpaces(t)
  }

  /** Collapsing removes only whitespace: the words stay. */
  lemma {:induction false} CollapseSpacesKeepsWords(s: string)
    ensures Words(CollapseSpaces(s)) == Words(s)
    decreases |s|
  {
    if s == [] {
    } else if IsSpace(s[0]) {
      var n := SpaceRun(s);
      var rest := CollapseSpaces(s[n..]);
      CollapseSpacesKeepsWords(s[n..]);
      assert s == s[..n] + s[n..];
      WordsSpacePrefix(s[..n], s[n..]);
      WordsCons(' ', rest);
    } else {
      var rest := CollapseSpaces(s[1..]);
      CollapseSpacesKeepsWords(s[1..]);
      assert s == [s[0]] + s[1..];
      WordsConsCongruent(s[0], rest, s[1..]);
    }
  }

  /** Leading whitespace removed. */
  function TrimStart(s: string): (r: string)
    ensures |r| <= |s| && r == s[|s| - |r|..]
    ensures AllSpace(s[..|s| - |r|]) && |s| - |r| == SpaceRun(s)
    ensures r != [] ==> !IsSpace(r[0])
    ensures Words(r) == Words(s)
  {
    var a := SpaceRun(s);
    assert s == s[..a] + s[a..];
    WordsSpacePrefix(s[..a], s[a..]);
    s[a..]
  }

  /** Trailing whitespace removed. */
  function TrimEnd(s: string): (r: string)
    ensures |r| <= |s| && r == s[..|r|]
    ensures AllSpace(s[|r|..])
    ensures r != [] ==> !IsSpace(r[|r| - 1])
    ensures Words(r) == Words(s)
  {
    var b := SpaceRunEnd(s);
    assert s == s[..|s| - b] + s[|s| - b..];
    WordsSpaceSuffix(s[..|s| - b], s[|s| - b..]);
    s[..|s| - b]
  }

  /** A contiguous piece keeps the spacing properties of the whole. */
  lemma SliceKeepsSpacing(s: string, lo: nat, hi: nat)
    requires lo <= hi <= |s|
    ensures SpacesOnly(s) ==> SpacesOnly(s[lo..hi])
    ensures NoDoubleSpace(s) ==> NoDoubleSpace(s[lo..hi])
  {
    assert forall i :: 0 <= i < hi - lo ==> s[lo..hi][i] == s[lo + i];
  }

  /** `String.prototype.trim`: `s` with its leading whitespace run (the
      first `SpaceRun(s)` characters) and its trailing whitespace run removed
      and nothing else, so the words and the spacing between them are those
      of `s`. */
  function Trim(s: string): (r: string)
    ensures Trimmed(r)
    ensures SpaceRun(s) + |r| <= |s| && r == s[SpaceRun(s)..SpaceRun(s) + |r|]
    ensures AllSpace(s[SpaceRun(s) + |r|..])
    ensures SpacesOnly(s) ==> SpacesOnly(r)
    ensures NoDoubleSpace(s) ==> NoDoubleSpace(r)
    ensures Words(r) == Words(s)
  {
    var t := TrimStart(s);
    var r := TrimEnd(t);
    var lo := |s| - |t|;
    assert r == s[lo..lo + |r|];
    assert s[lo + |r|..] == t[|r|..];
    SliceKeepsSpacing(s, lo, lo + |r|);
    r
  }

  // ---------------------------------------------------------------------
  // The whole cleaner
  // ---------------------------------------------------------------------

  /** The whitespace chain of the last statement: it yields the words of its
      input joined by single spaces. */
  function NormalizeSpace(s: string): (r: string)
    ensures r == Join(Words(s))
    ensures Trimmed(r) && SpacesOnly(r) && NoDoubleSpace(r)
    ensures |r| <= |s|
  {
    var r := Trim(CollapseSpaces(CollapseBlankLines(s)));
    CollapseBlankLinesKeepsWords(s);
    CollapseSpacesKeepsWords(CollapseBlankLines(s));
    SingleSpacedIsJoinedWords(r);
    assert Lead(r) == "" && Trail(r) == "";
    r
  }

  /** Collapsing spaces gives the words joined by single spaces, with one
      space for leading and one for trailing whitespace. */
  lemma CollapseSpacesJoinsWords(s: string)
    ensures CollapseSpaces(s) == Lead(s) + (Join(Words(s)) + Trail(s))
  {
    var r := CollapseSpaces(s);
    CollapseSpacesKeepsWords(s);
    SingleSpacedIsJoinedWords(r);
    assert Lead(r) == Lead(s) && Trail(r) == Trail(s);
  }

  /** The blank-line pass makes no difference once spaces are collapsed. */
  lemma CollapseBlankLinesAbsorbed(s: string)
    ensures CollapseSpaces(CollapseBlankLines(s)) == CollapseSpaces(s)
  {
    var b := CollapseBlankLines(s);
    CollapseBlankLinesKeepsWords(s);
    CollapseSpacesJoinsWords(b);
    CollapseSpacesJoinsWords(s);
    assert Lead(b) == Lead(s) && Trail(b) == Trail(s);
  }

  /** Tags stripped, then the table decoded. */
  function Decoded(html: string): (r: string)
    ensures |r| <= |html|
    ensures '<' !in html && '&' !in html ==> r == html
  {
    DecodeFrom(StripTags(html), 0)
  }

  /** `cleanHtmlMessage` as one expression: the words of the decoded text,
      joined by single spaces. The early return for "" agrees with that. */
  function Clean(html: string): (r: string)
    ensures r == Join(Words(Decoded(html)))
  {
    if html == [] then [] else NormalizeSpace(Decoded(html))
  }

  /** The method the source runs: tag stripping, then one replacement per
      table entry in a loop, then the whitespace chain. */
  method CleanHtmlMessage(html: string) returns (cleaned: string)
    ensures cleaned == Clean(html)
  {
    if html == [] {
      return [];
    }
    EntitiesWellFormed();
    cleaned := StripTags(html);
    var i := 0;
    while i < |Entities|
      invariant 0 <= i <= |Entities|
      invariant DecodeFrom(cleaned, i) == Decoded(html)
    {
      DecodeFromStep(cleaned, i);
      cleaned := ReplaceAll(cleaned, Entities[i].0, Entities[i].1);
      i := i + 1;
    }
    DecodeFromEnd(cleaned);
    cleaned := NormalizeSpace(cleaned);
  }

  /** The shape of every result: its words are those of the decoded text,
      joined by single spaces; so it is trimmed, holds whitespace only as
      single spaces, and is never longer than the input. */
  lemma CleanShape(html: string)
    ensures var r := Clean(html);
      && (html == [] ==> r == [])
      && (html != [] ==> r == Join(Words(Decoded(html))) && Words(r) == Words(Decoded(html)))
      && Trimmed(r) && SpacesOnly(r) && NoDoubleSpace(r)
      && |r| <= |html|
  {
    WordsAreWords(Decoded(html));
    WordsOfJoin(Words(Decoded(html)));
  }

  /** Text without `<` or `&` only has its whitespace normalised. */
  lemma PlainTextOnlyWhitespace(html: string)
    requires '<' !in html && '&' !in html
    ensures Clean(html) == if html == [] then [] else NormalizeSpace(html)
  {
  }

  // ---------------------------------------------------------------------
  // Lemmas that evaluate the steps on pieces of text
  // ---------------------------------------------------------------------

  /** Text without `<` passes through tag stripping, whatever follows. */
  lemma {:induction false} StripTagsPlainPrefix(a: string, y: string)
    requires '<' !in a
    ensures StripTags(a + y) == a + StripTags(y)
  {
    if a == [] {
      assert a + y == y;
    } else {
      SplitHead(a, y);
      StripTagsKeepsHead(a[0], a[1..] + y);
      StripTagsPlainPrefix(a[1..], y);
      SplitHead(a, StripTags(y));
    }
  }

  /** A first character other than `<` is kept. */
  lemma StripTagsKeepsHead(c: char, rest: string)
    requires c != '<'
    ensures StripTags([c] + rest) == [c] + StripTags(rest)
  {
    assert ([c] + rest)[1..] == rest;
  }

  /** The first `c` is at `k` when `s[k]` is `c` and none comes before. */
  lemma {:induction false} IndexOfIs(s: string, c: char, k: nat)
    requires k < |s| && s[k] == c && c !in s[..k]
    ensures IndexOf(s, c) == k
  {
    if k > 0 {
      assert s[0] == s[..k][0];
      assert s[1..][..k - 1] == s[..k][1..];
      IndexOfIs(s[1..], c, k - 1);
    }
  }

  /** A complete tag at the start is deleted. */
  lemma StripTagsDropsTag(tag: string, y: string)
    requires |tag| >= 2 && tag[0] == '<' && tag[|tag| - 1] == '>'
    requires '>' !in tag[1..|tag| - 1]
    ensures StripTags(tag + y) == StripTags(y)
  {
    var s := tag + y;
    assert s[1..][..|tag| - 2] == tag[1..|tag| - 1];
    IndexOfIs(s[1..], '>', |tag| - 2);
    assert s[|tag|..] == y;
  }

  lemma {:induction false} BlankLinesNoNewline(s: string)
    requires '\n' !in s
    ensures CollapseBlankLines(s) == s
  {
    if s != [] {
      BlankLinesNoNewline(s[1..]);
      assert s == [s[0]] + s[1..];
    }
  }

  lemma {:induction false} CollapseSpacesFixed(s: string)
    requires SpacesOnly(s) && NoDoubleSpace(s)
    ensures CollapseSpaces(s) == s
  {
    if s != [] {
      assert SpacesOnly(s[1..]) && NoDoubleSpace(s[1..]);
      if IsSpace(s[0]) {
        assert SpaceRun(s) == 1 by {
          if |s| > 1 { assert !IsSpace(s[1]); }
        }
      }
      CollapseSpacesFixed(s[1..]);
      assert s == [s[0]] + s[1..];
    }
  }

  /** Text that is already normal is left alone by the whitespace chain. */
  lemma NormalizeSpaceFixed(s: string)
    requires Trimmed(s) && SpacesOnly(s) && NoDoubleSpace(s)
    ensures NormalizeSpace(s) == s
  {
    assert '\n' !in s by {
      if '\n' in s {
        var i :| 0 <= i < |s| && s[i] == '\n';
        assert IsSpace(s[i]);
      }
    }
    BlankLinesNoNewline(s);
    CollapseSpacesFixed(s);
    assert SpaceRun(s) == 0 && SpaceRunEnd(s) == 0;
  }

  /** The whitespace chain is idempotent. */
  lemma NormalizeSpaceIdempotent(s: string)
    ensures NormalizeSpace(NormalizeSpace(s)) == NormalizeSpace(s)
  {
    NormalizeSpaceFixed(NormalizeSpace(s));
  }

  // ---------------------------------------------------------------------
  // Consequences of the fixed pass order
  // ---------------------------------------------------------------------

  /** The `&amp;` pass on a double-escaped name: the `&amp;` becomes `&`,
      the rest of the name is kept, and the pass goes on over `y`. */
  lemma AmpPassOnEscaped(i: nat, y: string)
    requires 1 <= i < |Entities|
    ensures DecodeFrom(Entities[0].0 + (Entities[i].0[1..] + y), 0)
         == DecodeFrom(Entities[0].1 + (Entities[i].0[1..] + ReplaceAll(y, Entities[0].0, Entities[0].1)), 1)
  {
    EntityTableFacts();
    var (name, ch) := Entities[i];
    var (amp, a) := Entities[0];
    DecodeFromStep(amp + (name[1..] + y), 0);
    ReplaceAllMatchPrefix(name[1..] + y, amp, a);
    ReplaceAllPlainPrefix(name[1..], y, amp, a);
  }

  /** What `&amp;` decodes to, followed by the rest of a name, is the name. */
  lemma AmpRejoinsName(i: nat, y: string)
    requires 1 <= i < |Entities|
    ensures Entities[0].1 + (Entities[i].0[1..] + y) == Entities[i].0 + y
  {
    EntityTableFacts();
    var name := Entities[i].0;
    assert name == [name[0]] + name[1..];
  }

  /** `&amp;` is decoded first, so a double-escaped table entity such as
      `&amp;lt;` is decoded twice and yields its character. */
  lemma DoubleEscapedDecodedTwice(i: nat, y: string)
    requires 1 <= i < |Entities|
    ensures DecodeFrom(Entities[0].0 + (Entities[i].0[1..] + y), 0) == Entities[i].1 + DecodeFrom(y, 0)
  {
    AmpPassOnEscaped(i, y);
    var y' := ReplaceAll(y, Entities[0].0, Entities[0].1);
    AmpRejoinsName(i, y');
    EntityDecodes(i, y', 1);
    DecodeFromStep(y, 0);
  }

  /** Text with no whitespace and none of `&`, `<`, `>`. */
  predicate Inert(t: string) {
    forall i :: 0 <= i < |t| ==> !IsSpace(t[i]) && t[i] != '&' && t[i] != '<' && t[i] != '>'
  }

  /** Text without whitespace is already normal. */
  lemma NoSpaceIsNormal(s: string)
    requires forall k :: 0 <= k < |s| ==> !IsSpace(s[k])
    ensures NormalizeSpace(s) == s
  {
    NormalizeSpaceFixed(s);
  }

  /** `&lt;` and `&gt;` (entries 1 and 2) around `&`-free text decode to
      their characters. */
  lemma EscapedTagDecodes(t: string)
    requires '&' !in t
    ensures DecodeFrom(Entities[1].0 + (t + Entities[2].0), 0)
         == Entities[1].1 + (t + Entities[2].1)
  {
    var gt := Entities[2].0;
    assert gt + [] == gt;
    EntityDecodes(1, t + gt, 0);
    DecodePlainPrefix(t, gt + [], 0);
    EntityDecodes(2, [], 0);
    assert Entities[2].1 + [] == Entities[2].1;
  }

  lemma LtGtCharacters()
    ensures Entities[1].1 == "<" && Entities[2].1 == ">"
  {
  }

  lemma NoLtInEscapedTag(t: string)
    requires '<' !in t
    ensures '<' !in Entities[1].0 + (t + Entities[2].0)
  {
    assert '<' !in Entities[1].0 && '<' !in Entities[2].0;
  }

  /** Tag stripping leaves an escaped tag alone; decoding yields the tag. */
  lemma EscapedTagDecoded(t: string)
    requires '&' !in t && '<' !in t
    ensures Decoded(Entities[1].0 + (t + Entities[2].0)) == "<" + (t + ">")
  {
    EscapedTagDecodes(t);
    LtGtCharacters();
    NoLtInEscapedTag(t);
  }

  /** A tag around inert text is already normal. */
  lemma TagIsNormal(t: string)
    requires Inert(t)
    ensures NormalizeSpace("<" + (t + ">")) == "<" + (t + ">")
  {
    var r := "<" + (t + ">");
    forall k | 0 <= k < |r| ensures !IsSpace(r[k]) {
      if 1 <= k < 1 + |t| { assert r[k] == t[k - 1]; }
    }
    NoSpaceIsNormal(r);
  }

  /** An escaped tag `&lt;t&gt;` cleans to the tag `<t>`. */
  lemma EscapedTagCleans(t: string)
    requires Inert(t)
    ensures Clean(Entities[1].0 + (t + Entities[2].0)) == "<" + (t + ">")
  {
    assert '&' !in t && '<' !in t by {
      assert forall k :: 0 <= k < |t| ==> t[k] != '&' && t[k] != '<';
    }
    var h := Entities[1].0 + (t + Entities[2].0);
    assert Entities[1].0 != [];
    assert h != [];
    EscapedTagDecoded(t);
    TagIsNormal(t);
    assert Clean(h) == NormalizeSpace(Decoded(h));
  }

  /** A tag `<t>` cleans to nothing. */
  lemma TagCleansAway(t: string)
    requires Inert(t)
    ensures Clean("<" + (t + ">")) == []
  {
    var r := "<" + (t + ">");
    assert r[1..|r| - 1] == t;
    assert forall k :: 0 <= k < |t| ==> t[k] != '>';
    assert r + [] == r;
    StripTagsDropsTag(r, []);
  }

  /** Decoded characters are not stripped again, so cleaning is not
      idempotent: an escaped tag `&lt;t&gt;` cleans to the tag `<t>`, and
      cleaning that again deletes it. */
  lemma EscapedTagNotIdempotent(t: string)
    requires Inert(t)
    ensures Clean(Entities[1].0 + (t + Entities[2].0)) == "<" + (t + ">")
    ensures Clean(Clean(Entities[1].0 + (t + Entities[2].0))) == []
  {
    EscapedTagCleans(t);
    TagCleansAway(t);
  }

  // ---------------------------------------------------------------------
  // Worked examples. Each step is its own lemma: evaluating the passes on
  // a literal string in one proof is more than the solver should be asked.
  // ---------------------------------------------------------------------

  /** A table entity other than `&amp;` between `&`-free texts decodes. */
  lemma EntityBetween(a: string, i: nat, b: string)
    requires 1 <= i < |Entities| && '&' !in a && '&' !in b
    ensures DecodeFrom(a + (Entities[i].0 + b), 0) == a + (Entities[i].1 + b)
  {
    DecodePlainPrefix(a, Entities[i].0 + b, 0);
    EntityDecodes(i, b, 0);
  }

  /** `&amp;` between `&`-free texts decodes, when what follows it does not
      complete a table name. */
  lemma AmpBetween(a: string, b: string)
    requires '&' !in a && '&' !in b
    requires forall j :: 0 <= j < |Entities| ==> !(Entities[j].0 <= "&" + b)
    ensures DecodeFrom(a + ("&amp;" + b), 0) == a + ("&" + b)
  {
    DecodePlainPrefix(a, "&amp;" + b, 0);
    AmpDecodes(b);
  }

  lemma AmpExampleFollower()
    ensures forall j :: 0 <= j < |Entities| ==> !(Entities[j].0 <= "&" + " B")
  {
    EntityTableFacts();
  }

  lemma AmpExampleDecode()
    ensures DecodeFrom("A " + ("&amp;" + " B"), 0) == "A " + ("&" + " B")
  {
    AmpExampleFollower();
    AmpBetween("A ", " B");
  }

  lemma AmpExampleStrip()
    ensures StripTags("A " + ("&amp;" + " B")) == "A " + ("&amp;" + " B")
  {
  }

  lemma AmpExampleNormal()
    ensures NormalizeSpace("A " + ("&" + " B")) == "A " + ("&" + " B")
  {
    NormalizeSpaceFixed("A " + ("&" + " B"));
  }

  /** `"A &amp; B"` cleans to `"A & B"`. */
  lemma AmpExample()
    ensures Clean("A " + ("&amp;" + " B")) == "A " + ("&" + " B")
  {
    AmpExampleStrip();
    AmpExampleDecode();
    AmpExampleNormal();
  }

  lemma NbspEntry()
    ensures Entities[5] == ("&nbsp;", " ")
  {
  }

  lemma NbspExampleDecode()
    ensures DecodeFrom("Hi" + ("&nbsp;" + "there"), 0) == "Hi" + (" " + "there")
  {
    NbspEntry();
    EntityBetween("Hi", 5, "there");
  }

  lemma NbspExampleOpenTag()
    ensures StripTags("<b>" + ("Hi" + ("</b>" + ("&nbsp;" + "there"))))
         == StripTags("Hi" + ("</b>" + ("&nbsp;" + "there")))
  {
    StripTagsDropsTag("<b>", "Hi" + ("</b>" + ("&nbsp;" + "there")));
  }

  lemma NbspExampleText()
    ensures StripTags("Hi" + ("</b>" + ("&nbsp;" + "there")))
         == "Hi" + StripTags("</b>" + ("&nbsp;" + "there"))
  {
    StripTagsPlainPrefix("Hi", "</b>" + ("&nbsp;" + "there"));
  }

  lemma NbspExampleCloseTag()
    ensures StripTags("</b>" + ("&nbsp;" + "there")) == "&nbsp;" + "there"
  {
    StripTagsDropsTag("</b>", "&nbsp;" + "there");
  }

  lemma NbspExampleNormal()
    ensures NormalizeSpace("Hi" + (" " + "there")) == "Hi" + (" " + "there")
  {
    NormalizeSpaceFixed("Hi" + (" " + "there"));
  }

  /** `"<b>Hi</b>&nbsp;there"` cleans to `"Hi there"`. */
  lemma NbspExample()
    ensures Clean("<b>" + ("Hi" + ("</b>" + ("&nbsp;" + "there"))))
         == "Hi" + (" " + "there")
  {
    NbspExampleOpenTag();
    NbspExampleText();
    NbspExampleCloseTag();
    NbspExampleDecode();
    NbspExampleNormal();
  }

  lemma DoubleEscapeSymbolic()
    ensures DecodeFrom(Entities[0].0 + (Entities[1].0[1..] + []), 0) == Entities[1].1
  {
    DoubleEscapedDecodedTwice(1, []);
    assert DecodeFrom([], 0) == [];
    assert Entities[1].1 + [] == Entities[1].1;
  }

  lemma DoubleEscapeSpelled()
    ensures "&amp;" + "lt;" == Entities[0].0 + (Entities[1].0[1..] + [])
    ensures Entities[1].1 == "<"
  {
  }

  lemma DoubleEscapeDecode()
    ensures DecodeFrom("&amp;" + "lt;", 0) == "<"
  {
    DoubleEscapeSymbolic();
    DoubleEscapeSpelled();
  }

  lemma DoubleEscapeStrip()
    ensures StripTags("&amp;" + "lt;") == "&amp;" + "lt;"
  {
  }

  lemma DoubleEscapeNormal()
    ensures NormalizeSpace("<") == "<"
  {
    NormalizeSpaceFixed("<");
  }

  /** `"&amp;lt;"` cleans to `"<"`: decoded twice. */
  lemma DoubleEscapeExample()
    ensures Clean("&amp;" + "lt;") == "<"
  {
    DoubleEscapeDecode();
    DoubleEscapeStrip();
    DoubleEscapeNormal();
  }

  lemma UnknownEntityNotInTable()
    ensures forall j :: 0 <= j < |Entities| ==>
      !(Entities[j].0 <= "&#039;") && !("&#039;" <= Entities[j].0)
  {
    EntityTableFacts();
    var h := "&#039;";
    forall j | 0 <= j < |Entities|
      ensures !(Entities[j].0 <= h) && !(h <= Entities[j].0)
    {
      assert Entities[j].0[1] != h[1] || Entities[j].0[2] != h[2];
    }
  }

  lemma UnknownEntityDecode()
    ensures DecodeFrom("&#039;", 0) == "&#039;"
  {
    UnknownEntityNotInTable();
    UnknownEntityKept("&#039;", [], 0);
    assert "&#039;" + [] == "&#039;";
  }

  lemma UnknownEntityStrip()
    ensures StripTags("&#039;") == "&#039;"
  {
  }

  lemma UnknownEntityNormal()
    ensures NormalizeSpace("&#039;") == "&#039;"
  {
    NormalizeSpaceFixed("&#039;");
  }

  lemma UnknownEntityDecoded()
    ensures Decoded("&#039;") == "&#039;"
  {
    UnknownEntityDecode();
    UnknownEntityStrip();
  }

  /** `"&#039;"` is not in the table and stays as it is. */
  lemma UnknownEntityExample()
    ensures Clean("&#039;") == "&#039;"
  {
    UnknownEntityDecoded();
    UnknownEntityNormal();
  }

  lemma EscapedTagSpelled()
    ensures Entities[1].0 + ("b" + Entities[2].0) == "&lt;" + ("b" + "&gt;")
  {
  }

  lemma InertB()
    ensures Inert("b")
  {
  }

  /** `"&lt;b&gt;"` cleans to `"<b>"`, which cleans to `""`. */
  lemma NotIdempotentExample()
    ensures Clean("&lt;" + ("b" + "&gt;")) == "<" + ("b" + ">")
    ensures Clean(Clean("&lt;" + ("b" + "&gt;"))) == []
  {
    InertB();
    EscapedTagNotIdempotent("b");
    EscapedTagSpelled();
  }
}
