/**
 * The lexical half of logic_designer.py's expression parser: the operator
 * table, the word-to-symbol rewriting and the one regular expression
 * `[A-Z]+|[&|^!~()]|\d+`, written out as a scanner over ASCII text.
 */
module Tokenizer {
  import opened Strings

  // ---------------------------------------------------------------------
  // characters and tokens

  predicate IsUpperChar(c: char) { 'A' <= c <= 'Z' }

  predicate IsAlphaChar(c: char) { 'A' <= c <= 'Z' || 'a' <= c <= 'z' }

  /** The single-character alternative of the pattern. */
  predicate IsSymbolChar(c: char) { c in "&|^!~()" }

  /** A character some alternative of the pattern can start with. */
  predicate IsTokenChar(c: char) { IsUpperChar(c) || IsSymbolChar(c) || IsDigitChar(c) }

  /** `str.isalpha()`. */
  predicate IsAlpha(t: string) { |t| > 0 && forall k :: 0 <= k < |t| ==> IsAlphaChar(t[k]) }

  /** `str.isdigit()`. */
  predicate IsDigits(t: string) { |t| > 0 && forall k :: 0 <= k < |t| ==> IsDigitChar(t[k]) }

  /** `str.isalnum()`. */
  predicate IsAlnum(t: string) { |t| > 0 && forall k :: 0 <= k < |t| ==> IsAlphaChar(t[k]) || IsDigitChar(t[k]) }

  /** The keys of the operator table. */
  const Operators: set<string> := {"NOT", "!", "~", "AND", "&", "OR", "|", "XOR", "^"}

  predicate IsUnary(t: string) { t in {"NOT", "!", "~"} }

  /** The precedence column of the operator table: NOT 3, AND 2, OR and XOR 1. */
  function Precedence(t: string): (p: nat)
    requires t in Operators
    ensures 1 <= p <= 3 && (p == 3 <==> IsUnary(t))
    ensures p == 2 <==> t in {"AND", "&"}
  {
    if IsUnary(t) then 3 else if t in {"AND", "&"} then 2 else 1
  }

  // ---------------------------------------------------------------------
  // rewriting

  /** `str.upper()` on ASCII letters; every other character is kept. */
  function Upper(s: string): (r: string)
    ensures |r| == |s|
    ensures forall k :: 0 <= k < |s| ==> (IsAlphaChar(s[k]) <==> IsUpperChar(r[k]))
    ensures forall k :: 0 <= k < |s| ==> !IsAlphaChar(s[k]) ==> r[k] == s[k]
    ensures forall k :: 0 <= k < |s| && 'a' <= s[k] <= 'z' ==> r[k] as int == s[k] as int - 32
    ensures forall k :: 0 <= k < |s| && 'A' <= s[k] <= 'Z' ==> r[k] == s[k]
  {
    seq(|s|, k requires 0 <= k < |s| => if 'a' <= s[k] <= 'z' then ((s[k] as int) - 32) as char else s[k])
  }

  /** `s.replace(pat, rep)`: leftmost, non-overlapping occurrences. */
  function Replace(s: string, pat: string, rep: string): string
    requires |pat| > 0
    decreases |s|
  {
    if |s| < |pat| then s
    else if s[..|pat|] == pat then rep + Replace(s[|pat|..], pat, rep)
    else [s[0]] + Replace(s[1..], pat, rep)
  }

  /** The four replacements of `tokenize`, in the source's order. */
  function Rewrite(s: string): string
  {
    Replace(Replace(Replace(Replace(s, "AND", "&"), "OR", "|"), "XOR", "^"), "NOT", "!")
  }

  // ---------------------------------------------------------------------
  // the scanner

  datatype CharClass = Letters | Digits

  predicate InClass(c: char, cls: CharClass)
  {
    if cls == Letters then IsUpperChar(c) else IsDigitChar(c)
  }

  /** Length of the longest prefix of s inside the class: what `[A-Z]+` or `\d+` consumes. */
  function Run(s: string, cls: CharClass): (k: nat)
    ensures k <= |s|
    ensures forall i :: 0 <= i < k ==> InClass(s[i], cls)
    ensures k < |s| ==> !InClass(s[k], cls)
  {
    if |s| == 0 || !InClass(s[0], cls) then 0 else 1 + Run(s[1..], cls)
  }

  /** `re.findall`: at each position the first alternative that matches, else skip a character. */
  function Scan(s: string): seq<string>
    decreases |s|
  {
    if |s| == 0 then []
    else if IsUpperChar(s[0]) then
      var k := Run(s, Letters);
      [s[..k]] + Scan(s[k..])
    else if IsSymbolChar(s[0]) then [[s[0]]] + Scan(s[1..])
    else if IsDigitChar(s[0]) then
      var k := Run(s, Digits);
      [s[..k]] + Scan(s[k..])
    else Scan(s[1..])
  }

  /** tokenize: upper-case, rewrite the operator words, scan. */
  function Tokenize(expression: string): seq<string>
  {
    Scan(Rewrite(Upper(expression)))
  }

  /** A token as the pattern produces them. */
  predicate IsToken(t: string)
  {
    (|t| > 0 && forall k :: 0 <= k < |t| ==> IsUpperChar(t[k]))
    || (|t| == 1 && IsSymbolChar(t[0]))
    || IsDigits(t)
  }

  function Concat(ts: seq<string>): string
  {
    if |ts| == 0 then "" else ts[0] + Concat(ts[1..])
  }

  /** The characters of s that some alternative can match, in order. */
  function Kept(s: string): string
  {
    if |s| == 0 then "" else (if IsTokenChar(s[0]) then [s[0]] else "") + Kept(s[1..])
  }

  lemma {:induction false} KeptRun(s: string, k: nat)
    requires k <= |s| && forall i :: 0 <= i < k ==> IsTokenChar(s[i])
    ensures Kept(s) == s[..k] + Kept(s[k..])
  {
    if k > 0 {
      var t := s[1..];
      forall i | 0 <= i < k - 1
        ensures IsTokenChar(t[i])
      {
        assert t[i] == s[i + 1];
      }
      KeptRun(t, k - 1);
      assert IsTokenChar(s[0]);
      assert Kept(s) == [s[0]] + Kept(t);
      assert t[k - 1..] == s[k..];
      assert s[..k] == [s[0]] + t[..k - 1];
      Associative([s[0]], t[..k - 1], Kept(s[k..]));
    }
  }

  /** Putting a well-formed token in front keeps every token well formed and prefixes the spelling. */
  lemma ConsSpells(t: string, ts: seq<string>)
    requires IsToken(t) && forall u :: u in ts ==> IsToken(u)
    ensures forall u :: u in [t] + ts ==> IsToken(u)
    ensures Concat([t] + ts) == t + Concat(ts)
  {
    assert ([t] + ts)[0] == t && ([t] + ts)[1..] == ts;
  }

  /** Every token is well formed, and together they spell the matchable characters. */
  lemma {:induction false} ScanSpells(s: string)
    ensures forall t :: t in Scan(s) ==> IsToken(t)
    ensures Concat(Scan(s)) == Kept(s)
    decreases |s|
  {
    if |s| > 0 {
      var c := s[0];
      if IsUpperChar(c) || (!IsSymbolChar(c) && IsDigitChar(c)) {
        var cls := if IsUpperChar(c) then Letters else Digits;
        var k := Run(s, cls);
        var head, rest := s[..k], s[k..];
        assert Scan(s) == [head] + Scan(rest);
        assert k > 0 && forall i :: 0 <= i < k ==> InClass(s[i], cls);
        assert IsToken(head) by {
          if cls == Letters {
            assert forall i :: 0 <= i < |head| ==> IsUpperChar(head[i]);
          } else {
            assert forall i :: 0 <= i < |head| ==> IsDigitChar(head[i]);
          }
        }
        assert forall i :: 0 <= i < k ==> IsTokenChar(s[i]);
        ScanSpells(rest);
        KeptRun(s, k);
        ConsSpells(head, Scan(rest));
      } else if IsSymbolChar(c) {
        var rest := s[1..];
        assert Scan(s) == [[c]] + Scan(rest);
        assert s[..1] == [c];
        ScanSpells(rest);
        KeptRun(s, 1);
        ConsSpells([c], Scan(rest));
      } else {
        assert Scan(s) == Scan(s[1..]) && Kept(s) == Kept(s[1..]);
        ScanSpells(s[1..]);
      }
    }
  }

  /** A letter or digit run ends exactly where the next character leaves its class. */
  lemma ScanRun(r: string, t: string, cls: CharClass)
    requires |r| > 0 && forall i :: 0 <= i < |r| ==> InClass(r[i], cls)
    requires |t| == 0 || !InClass(t[0], cls)
    ensures Scan(r + t) == [r] + Scan(t)
  {
    var s := r + t;
    RunPrefix(r, t, cls);
    assert s[..|r|] == r && s[|r|..] == t;
    assert !IsSymbolChar(s[0]);
  }

  lemma {:induction false} RunPrefix(r: string, t: string, cls: CharClass)
    requires forall i :: 0 <= i < |r| ==> InClass(r[i], cls)
    requires |t| == 0 || !InClass(t[0], cls)
    ensures Run(r + t, cls) == |r|
  {
    if |r| > 0 {
      RunPrefix(r[1..], t, cls);
      assert (r + t)[1..] == r[1..] + t;
    } else {
      assert r + t == t;
    }
  }

  /** A symbol is a token on its own; any other unmatched character is skipped. */
  lemma ScanSymbolOrSkip(c: char, t: string)
    ensures IsSymbolChar(c) ==> Scan([c] + t) == [[c]] + Scan(t)
    ensures !IsTokenChar(c) ==> Scan([c] + t) == Scan(t)
  {
    assert ([c] + t)[1..] == t;
  }

  /** A one-character symbol is neither a word nor a number. */
  lemma SymbolToken(c: char)
    requires IsSymbolChar(c)
    ensures !IsAlnum([c]) && !IsAlpha([c]) && !IsDigits([c]) && IsToken([c])
  {
    assert [c][0] == c;
  }

  // ---------------------------------------------------------------------
  // the XOR rule never fires

  /** No "OR" anywhere in s. */
  predicate NoOr(s: string)
  {
    forall i :: 0 <= i < |s| - 1 ==> !(s[i] == 'O' && s[i + 1] == 'R')
  }

  /** The first character of the OR rewrite. */
  lemma ReplaceOrHead(s: string)
    requires |s| > 0
    ensures |Replace(s, "OR", "|")| > 0
    ensures |s| >= 2 && s[..2] == "OR" ==> Replace(s, "OR", "|")[0] == '|'
    ensures !(|s| >= 2 && s[..2] == "OR") ==> Replace(s, "OR", "|")[0] == s[0]
  {
  }

  /** After the OR rule no "OR" is left. */
  lemma {:induction false} ReplaceOrClears(s: string)
    ensures NoOr(Replace(s, "OR", "|"))
    decreases |s|
  {
    if |s| >= 2 {
      if s[..2] == "OR" {
        ReplaceOrClears(s[2..]);
        var rest := Replace(s[2..], "OR", "|");
        assert Replace(s, "OR", "|") == "|" + rest;
      } else {
        ReplaceOrClears(s[1..]);
        var rest := Replace(s[1..], "OR", "|");
        assert Replace(s, "OR", "|") == [s[0]] + rest;
        ReplaceOrHead(s[1..]);
        if s[0] == 'O' {
          assert s[1] != 'R';
          assert rest[0] != 'R';
        }
      }
    }
  }

  /** Replacing a word that contains "OR" changes nothing in a string without "OR". */
  lemma {:induction false} ReplaceXorIdle(s: string)
    requires NoOr(s)
    ensures Replace(s, "XOR", "^") == s
    decreases |s|
  {
    if |s| >= 3 {
      assert !(s[1] == 'O' && s[2] == 'R');
      assert s[..3][1] == s[1] && s[..3][2] == s[2];
      ReplaceXorIdle(s[1..]);
      assert s == [s[0]] + s[1..];
    }
  }

  /** The rewrite as written: its XOR rule never fires, because OR has already run. */
  lemma XorRuleNeverFires(s: string)
    ensures Rewrite(s) == Replace(Replace(Replace(s, "AND", "&"), "OR", "|"), "NOT", "!")
  {
    ReplaceOrClears(Replace(s, "AND", "&"));
    ReplaceXorIdle(Replace(Replace(s, "AND", "&"), "OR", "|"));
  }

  /** The rewrite with the three-letter word replaced before the two-letter one it contains. */
  function IntendedRewrite(s: string): string
  {
    Replace(Replace(Replace(Replace(s, "AND", "&"), "XOR", "^"), "OR", "|"), "NOT", "!")
  }

  function IntendedTokenize(expression: string): seq<string>
  {
    Scan(IntendedRewrite(Upper(expression)))
  }

  // ---------------------------------------------------------------------
  // text split at a blank is rewritten piece by piece

  lemma ReplaceShort(s: string, pat: string, rep: string)
    requires 0 < |pat| && |s| < |pat|
    ensures Replace(s, pat, rep) == s
  {
  }

  lemma ReplaceHead(s: string, pat: string, rep: string)
    requires 0 < |pat| <= |s|
    ensures s[..|pat|] == pat ==> Replace(s, pat, rep) == rep + Replace(s[|pat|..], pat, rep)
    ensures s[..|pat|] != pat ==> Replace(s, pat, rep) == [s[0]] + Replace(s[1..], pat, rep)
  {
  }

  /** Replace distributes over a character that cannot be part of the pattern. */
  lemma {:induction false} ReplaceSplit(x: string, c: char, y: string, pat: string, rep: string)
    requires |pat| > 0 && c !in pat
    ensures Replace(x + [c] + y, pat, rep) == Replace(x, pat, rep) + [c] + Replace(y, pat, rep)
    decreases |x|
  {
    var s := x + [c] + y;
    var n := |pat|;
    if |s| < n {
      ReplaceShort(s, pat, rep);
      ReplaceShort(x, pat, rep);
      ReplaceShort(y, pat, rep);
    } else if |x| == 0 {
      assert s[..n][0] == c && s[1..] == y && s == [c] + y;
      ReplaceHead(s, pat, rep);
    } else if s[..n] == pat {
      assert s[|x|] == c && forall i :: 0 <= i < n ==> pat[i] == s[i];
      ReplaceSplit(x[n..], c, y, pat, rep);
      ReplaceSplitHit(x, c, y, pat, rep);
    } else {
      ReplaceSplit(x[1..], c, y, pat, rep);
      ReplaceSplitMiss(x, c, y, pat, rep);
    }
  }

  lemma ReplaceSplitHit(x: string, c: char, y: string, pat: string, rep: string)
    requires 0 < |pat| <= |x| && x[..|pat|] == pat
    requires Replace(x[|pat|..] + [c] + y, pat, rep) == Replace(x[|pat|..], pat, rep) + [c] + Replace(y, pat, rep)
    ensures Replace(x + [c] + y, pat, rep) == Replace(x, pat, rep) + [c] + Replace(y, pat, rep)
  {
    var s := x + [c] + y;
    var n := |pat|;
    var rest, ry := Replace(x[n..], pat, rep), Replace(y, pat, rep);
    assert s[..n] == pat && s[n..] == x[n..] + [c] + y;
    ReplaceHead(s, pat, rep);
    ReplaceHead(x, pat, rep);
    assert Replace(s, pat, rep) == rep + (rest + [c] + ry);
    assert Replace(x, pat, rep) == rep + rest;
    assert rep + (rest + [c] + ry) == rep + rest + [c] + ry;
  }

  /** Where the pattern does not start, Replace keeps the first character. */
  lemma ReplaceKeepsHead(x: string, pat: string, rep: string)
    requires 0 < |pat| && |x| > 0 && (|x| < |pat| || x[..|pat|] != pat)
    ensures Replace(x, pat, rep) == [x[0]] + Replace(x[1..], pat, rep)
  {
    if |x| < |pat| {
      ReplaceShort(x, pat, rep);
      ReplaceShort(x[1..], pat, rep);
      assert x == [x[0]] + x[1..];
    } else {
      ReplaceHead(x, pat, rep);
    }
  }

  lemma ReplaceSplitMiss(x: string, c: char, y: string, pat: string, rep: string)
    requires |pat| > 0 && |x| > 0 && |x + [c] + y| >= |pat| && (x + [c] + y)[..|pat|] != pat
    requires Replace(x[1..] + [c] + y, pat, rep) == Replace(x[1..], pat, rep) + [c] + Replace(y, pat, rep)
    ensures Replace(x + [c] + y, pat, rep) == Replace(x, pat, rep) + [c] + Replace(y, pat, rep)
  {
    var s := x + [c] + y;
    var n := |pat|;
    var tail, ry := Replace(x[1..], pat, rep), Replace(y, pat, rep);
    assert s[0] == x[0] && s[1..] == x[1..] + [c] + y;
    ReplaceKeepsHead(s, pat, rep);
    assert |x| >= n ==> x[..n] == s[..n];
    ReplaceKeepsHead(x, pat, rep);
    Associative([x[0]], tail, [c]);
    Associative([x[0]], tail + [c], ry);
  }

  /** The word XOR scans as the letter X followed by OR's symbol. */
  lemma TokenizeXorAsWritten()
    ensures Tokenize("XOR") == ["X", "|"]
  {
    assert Upper("XOR") == "XOR";
    assert Replace("XOR", "AND", "&") == "XOR" by {
      assert "XOR"[..3] != "AND" && "XOR"[1..] == "OR";
      ReplaceKeepsHead("XOR", "AND", "&");
      ReplaceShort("OR", "AND", "&");
    }
    assert Replace("XOR", "OR", "|") == "X|" by {
      assert "XOR"[..2] != "OR" && "XOR"[1..] == "OR";
      ReplaceKeepsHead("XOR", "OR", "|");
      assert "OR"[..2] == "OR" && "OR"[2..] == "";
      ReplaceHead("OR", "OR", "|");
    }
    ReplaceShort("X|", "XOR", "^");
    ReplaceShort("X|", "NOT", "!");
    assert Rewrite("XOR") == "X|";
    ScanRun("X", "|", Letters);
    ScanSymbolOrSkip('|', "");
  }

  /** With the corrected order the word XOR scans as its symbol. */
  lemma TokenizeXorIntended()
    ensures IntendedTokenize("XOR") == ["^"]
  {
    assert Upper("XOR") == "XOR";
    assert IntendedRewrite("XOR") == "^";
    ScanSymbolOrSkip('^', "");
  }
}
