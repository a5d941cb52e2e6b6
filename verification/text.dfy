/** String operations the launcher borrows from Rust's `str`: the Unicode
    White_Space test behind `split_whitespace`, an ASCII stand-in for
    `to_uppercase`/`to_lowercase`, `contains`, `split`, `join` and `replace`.
    Each is defined on `seq<char>` and tied to an independent description of
    what it computes. */
module Text {
  import opened Wrappers

  /** `char::is_whitespace`: the Unicode White_Space property. */
  predicate IsWhitespace(c: char) {
    || c == ' '
    || ('\t' <= c <= '\r')
    || c == '\U{0085}' || c == '\U{00A0}' || c == '\U{1680}'
    || ('\U{2000}' <= c <= '\U{200A}')
    || c == '\U{2028}' || c == '\U{2029}' || c == '\U{202F}' || c == '\U{205F}'
    || c == '\U{3000}'
  }

  predicate NoWhitespace(s: string) {
    forall i :: 0 <= i < |s| ==> !IsWhitespace(s[i])
  }

  predicate AllWhitespace(s: string) {
    forall i :: 0 <= i < |s| ==> IsWhitespace(s[i])
  }

  // ---------------------------------------------------------------- case

  function UpperChar(c: char): char {
    if 'a' <= c <= 'z' then (c as int - 32) as char else c
  }

  function LowerChar(c: char): char {
    if 'A' <= c <= 'Z' then (c as int + 32) as char else c
  }

  /** `str::to_uppercase`, restricted to the ASCII letters. */
  function Upper(s: string): (r: string)
    ensures |r| == |s|
    ensures forall i :: 0 <= i < |s| ==> r[i] == UpperChar(s[i])
  {
    seq(|s|, i requires 0 <= i < |s| => UpperChar(s[i]))
  }

  /** `str::to_lowercase`, restricted to the ASCII letters. */
  function Lower(s: string): (r: string)
    ensures |r| == |s|
    ensures forall i :: 0 <= i < |s| ==> r[i] == LowerChar(s[i])
  {
    seq(|s|, i requires 0 <= i < |s| => LowerChar(s[i]))
  }

  /** A string is "all lowercase" when lowering it changes nothing, which is
      exactly when it holds no upper-case letter. */
  predicate IsLowercase(s: string) {
    Lower(s) == s
  }

  lemma LowercaseIffNoUpper(s: string)
    ensures IsLowercase(s) <==> forall i :: 0 <= i < |s| ==> !('A' <= s[i] <= 'Z')
  {
    if IsLowercase(s) {
      forall i | 0 <= i < |s|
        ensures !('A' <= s[i] <= 'Z')
      {
        assert Lower(s)[i] == s[i];
      }
    } else {
      var i :| 0 <= i < |s| && Lower(s)[i] != s[i];
      assert 'A' <= s[i] <= 'Z';
    }
  }

  lemma UpperIdempotent(s: string)
    ensures Upper(Upper(s)) == Upper(s)
  {
  }

  lemma UpperAppend(a: string, b: string)
    ensures Upper(a + b) == Upper(a) + Upper(b)
  {
  }

  /** Upper-casing never turns a non-blank character into a blank one, or back. */
  lemma UpperKeepsWhitespace(c: char)
    ensures IsWhitespace(UpperChar(c)) <==> IsWhitespace(c)
  {
  }

  // ------------------------------------------------------------ contains

  /** `str::contains`: `q` occurs somewhere in `s`. */
  predicate Contains(s: string, q: string)
    decreases |s|
  {
    q <= s || (|s| > 0 && Contains(s[1..], q))
  }

  /** `Contains` agrees with the positional definition of "occurs in". */
  lemma {:induction false} ContainsIffOccurs(s: string, q: string)
    ensures Contains(s, q) <==> exists i :: 0 <= i <= |s| && q <= s[i..]
    decreases |s|
  {
    if q <= s {
      assert s[0..] == s;
    } else if |s| > 0 {
      ContainsIffOccurs(s[1..], q);
      if Contains(s[1..], q) {
        var i :| 0 <= i <= |s[1..]| && q <= s[1..][i..];
        assert s[1..][i..] == s[i + 1..];
      } else {
        forall i | 0 <= i <= |s|
          ensures !(q <= s[i..])
        {
          if i > 0 {
            assert s[1..][i - 1..] == s[i..];
          } else {
            assert s[0..] == s;
          }
        }
      }
    } else {
      forall i | 0 <= i <= |s|
        ensures !(q <= s[i..])
      {
        assert s[i..] == s;
      }
    }
  }

  /** Every string contains itself, so a full match is also a partial one. */
  lemma ContainsSelf(s: string)
    ensures Contains(s, s)
  {
  }

  /** A prefix is contained. */
  lemma PrefixContained(s: string, q: string)
    requires q <= s
    ensures Contains(s, q)
  {
  }

  // ------------------------------------------------------ split_whitespace

  /** The longest blank-free prefix of `s`. */
  function Word(s: string): (r: string)
    ensures r <= s
    ensures NoWhitespace(r)
    ensures |r| < |s| ==> IsWhitespace(s[|r|])
    ensures |s| > 0 && !IsWhitespace(s[0]) ==> |r| > 0
    decreases |s|
  {
    if |s| > 0 && !IsWhitespace(s[0]) then [s[0]] + Word(s[1..]) else []
  }

  /** `str::split_whitespace`: the maximal blank-free runs of `s`, in order. */
  function Words(s: string): (r: seq<string>)
    ensures forall k :: 0 <= k < |r| ==> |r[k]| > 0 && NoWhitespace(r[k])
    ensures r == [] <==> AllWhitespace(s)
    decreases |s|
  {
    if |s| == 0 then []
    else if IsWhitespace(s[0]) then
      var r := Words(s[1..]);
      assert AllWhitespace(s) <==> AllWhitespace(s[1..]) by {
        if AllWhitespace(s[1..]) {
          assert forall i :: 1 <= i < |s| ==> s[i] == s[1..][i - 1];
        }
      }
      r
    else
      var w := Word(s);
      var rest := Words(s[|w|..]);
      var r := [w] + rest;
      assert forall k :: 1 <= k < |r| ==> r[k] == rest[k - 1];
      r
  }

  /** A run with no blank is its own longest blank-free prefix, also when
      a blank follows it. */
  lemma {:induction false} WordStopsAtBlank(w: string, rest: string)
    requires NoWhitespace(w)
    requires |rest| == 0 || IsWhitespace(rest[0])
    ensures Word(w + rest) == w
    decreases |w|
  {
    if |w| > 0 {
      assert (w + rest)[1..] == w[1..] + rest;
      WordStopsAtBlank(w[1..], rest);
      assert w == [w[0]] + w[1..];
    } else {
      assert w + rest == rest;
    }
  }

  /** A word followed by a blank splits off as the first word. */
  lemma WordsCons(w: string, c: char, rest: string)
    requires |w| > 0 && NoWhitespace(w) && IsWhitespace(c)
    ensures Words(w + [c] + rest) == [w] + Words(rest)
  {
    var s := w + [c] + rest;
    assert s == w + ([c] + rest);
    WordStopsAtBlank(w, [c] + rest);
    assert s[|w|..] == [c] + rest;
    assert ([c] + rest)[1..] == rest;
  }

  /** A single blank-free run is one word. */
  lemma WordsOfWord(w: string)
    requires |w| > 0 && NoWhitespace(w)
    ensures Words(w) == [w]
  {
    WordStopsAtBlank(w, []);
    assert w + [] == w;
    assert w[|w|..] == [];
  }

  /** The characters of `s` that are not blanks, in order. */
  function RemoveSpace(s: string): (r: string)
    decreases |s|
  {
    if |s| == 0 then []
    else if IsWhitespace(s[0]) then RemoveSpace(s[1..])
    else [s[0]] + RemoveSpace(s[1..])
  }

  function Concat(ws: seq<string>): string
    decreases |ws|
  {
    if |ws| == 0 then [] else ws[0] + Concat(ws[1..])
  }

  lemma {:induction false} RemoveSpaceAppend(a: string, b: string)
    ensures RemoveSpace(a + b) == RemoveSpace(a) + RemoveSpace(b)
    decreases |a|
  {
    if |a| > 0 {
      assert (a + b)[1..] == a[1..] + b;
      RemoveSpaceAppend(a[1..], b);
    } else {
      assert a + b == b;
    }
  }

  lemma {:induction false} RemoveSpaceOfWord(s: string)
    requires NoWhitespace(s)
    ensures RemoveSpace(s) == s
    decreases |s|
  {
    if |s| > 0 {
      RemoveSpaceOfWord(s[1..]);
    }
  }

  /** Gluing the words back together gives the input with its blanks
      removed: `split_whitespace` loses the blanks and nothing else. */
  lemma {:induction false} WordsLoseOnlyBlanks(s: string)
    ensures Concat(Words(s)) == RemoveSpace(s)
    decreases |s|
  {
    if |s| > 0 && IsWhitespace(s[0]) {
      WordsLoseOnlyBlanks(s[1..]);
    } else if |s| > 0 {
      var w := Word(s);
      var rest := s[|w|..];
      assert s == w + rest;
      WordsLoseOnlyBlanks(rest);
      RemoveSpaceAppend(w, rest);
      RemoveSpaceOfWord(w);
      assert Words(s) == [w] + Words(rest);
      assert Concat(Words(s)) == w + Concat(Words(rest));
    }
  }

  // ---------------------------------------------------- split_once(blank)

  /** Index of the first blank in `s`, if any. */
  function FirstSpace(s: string): (r: Option<nat>)
    ensures r.None? <==> NoWhitespace(s)
    ensures r.Some? ==> r.value < |s| && IsWhitespace(s[r.value]) && NoWhitespace(s[..r.value])
    decreases |s|
  {
    if |s| == 0 then None
    else if IsWhitespace(s[0]) then Some(0)
    else
      match FirstSpace(s[1..])
      case None => None
      case Some(i) =>
        assert s[..i + 1] == [s[0]] + s[1..][..i];
        Some(i + 1)
  }

  /** `str::split_once(char::is_whitespace)`: the text before and after the
      first blank, which itself is dropped. */
  function SplitOnceSpace(s: string): (r: Option<(string, string)>)
    ensures r.None? <==> NoWhitespace(s)
    ensures r.Some? ==>
              && NoWhitespace(r.value.0)
              && |r.value.0| < |s|
              && s == r.value.0 + [s[|r.value.0|]] + r.value.1
              && IsWhitespace(s[|r.value.0|])
  {
    match FirstSpace(s)
    case None => None
    case Some(i) =>
      assert s == s[..i] + [s[i]] + s[i + 1..];
      Some((s[..i], s[i + 1..]))
  }

  /** The first blank after a word is the one right after it. */
  lemma {:induction false} FirstSpaceAfterWord(w: string, c: char, rest: string)
    requires NoWhitespace(w) && IsWhitespace(c)
    ensures FirstSpace(w + [c] + rest) == Some(|w|)
    decreases |w|
  {
    var s := w + [c] + rest;
    if |w| > 0 {
      assert s[0] == w[0];
      assert s[1..] == w[1..] + [c] + rest;
      FirstSpaceAfterWord(w[1..], c, rest);
    } else {
      assert s[0] == c;
    }
  }

  /** A word, a blank and the rest split once into the word and the rest. */
  lemma SplitOnceSpaceAfterWord(w: string, c: char, rest: string)
    requires NoWhitespace(w) && IsWhitespace(c)
    ensures SplitOnceSpace(w + [c] + rest) == Some((w, rest))
  {
    var s := w + [c] + rest;
    FirstSpaceAfterWord(w, c, rest);
    assert s[..|w|] == w && s[|w| + 1..] == rest;
  }

  // ------------------------------------------------------ split / join

  /** `str::split` with a non-empty string separator: the pieces between the
      leftmost non-overlapping occurrences of `sep`. */
  function Split(s: string, sep: string): (r: seq<string>)
    requires |sep| > 0
    ensures |r| >= 1
    decreases |s|
  {
    if sep <= s then [[]] + Split(s[|sep|..], sep)
    else if |s| == 0 then [[]]
    else
      var rest := Split(s[1..], sep);
      [[s[0]] + rest[0]] + rest[1..]
  }

  /** `[String]::join`. */
  function Join(parts: seq<string>, sep: string): string
    decreases |parts|
  {
    if |parts| == 0 then []
    else if |parts| == 1 then parts[0]
    else parts[0] + sep + Join(parts[1..], sep)
  }

  /** Joining the pieces with the separator they were split on gives back
      the original string. */
  lemma {:induction false} JoinSplit(s: string, sep: string)
    requires |sep| > 0
    ensures Join(Split(s, sep), sep) == s
    decreases |s|
  {
    if sep <= s {
      var tail := s[|sep|..];
      var rest := Split(tail, sep);
      JoinSplit(tail, sep);
      var empty: string := [];
      assert Split(s, sep) == [empty] + rest;
      JoinCons(empty, rest, sep);
      assert s == empty + sep + tail;
    } else if |s| > 0 {
      var rest := Split(s[1..], sep);
      JoinSplit(s[1..], sep);
      var parts := [[s[0]] + rest[0]] + rest[1..];
      assert Split(s, sep) == parts;
      JoinConsHead(s[0], rest, sep);
      assert s == [s[0]] + s[1..];
    }
  }

  /** Joining a piece in front of at least one more. */
  lemma JoinCons(p: string, rest: seq<string>, sep: string)
    requires |rest| >= 1
    ensures Join([p] + rest, sep) == p + sep + Join(rest, sep)
  {
    assert ([p] + rest)[1..] == rest;
  }

  /** Prepending a character to the first piece prepends it to the join. */
  lemma JoinConsHead(c: char, parts: seq<string>, sep: string)
    requires |parts| >= 1
    ensures Join([[c] + parts[0]] + parts[1..], sep) == [c] + Join(parts, sep)
  {
    var ps := [[c] + parts[0]] + parts[1..];
    assert ps[1..] == parts[1..];
    if |parts| > 1 {
      assert Join(ps, sep) == ([c] + parts[0]) + sep + Join(parts[1..], sep);
    }
  }

  /** A string without the separator splits into itself alone. */
  lemma {:induction false} SplitAbsent(s: string, sep: string)
    requires |sep| > 0 && !Contains(s, sep)
    ensures Split(s, sep) == [s]
    decreases |s|
  {
    if |s| > 0 {
      SplitAbsent(s[1..], sep);
      assert s == [s[0]] + s[1..];
    }
  }

  // ------------------------------------------------------------ replace

  /** `str::replace`: every leftmost non-overlapping occurrence of `pat` is
      replaced by `rep`. */
  function Replace(s: string, pat: string, rep: string): string
    requires |pat| > 0
    decreases |s|
  {
    if pat <= s then rep + Replace(s[|pat|..], pat, rep)
    else if |s| == 0 then []
    else [s[0]] + Replace(s[1..], pat, rep)
  }

  /** Replacing a pattern by itself changes nothing. */
  lemma {:induction false} ReplaceBySelf(s: string, pat: string)
    requires |pat| > 0
    ensures Replace(s, pat, pat) == s
    decreases |s|
  {
    if pat <= s {
      ReplaceBySelf(s[|pat|..], pat);
      assert s == pat + s[|pat|..];
    } else if |s| > 0 {
      ReplaceBySelf(s[1..], pat);
      assert s == [s[0]] + s[1..];
    }
  }

  /** A text without the pattern's first character does not contain it. */
  lemma {:induction false} NoCharNoContains(s: string, q: string)
    requires |q| > 0 && forall i :: 0 <= i < |s| ==> s[i] != q[0]
    ensures !Contains(s, q)
    decreases |s|
  {
    if |s| == 0 {
      assert !(q <= s);
    } else {
      assert s[0] != q[0];
      assert !(q <= s);
      forall i | 0 <= i < |s[1..]|
        ensures s[1..][i] != q[0]
      {
        assert s[1..][i] == s[i + 1];
      }
      NoCharNoContains(s[1..], q);
    }
  }

  /** A pattern longer than the text does not occur in it. */
  lemma {:induction false} LongerNotContained(s: string, q: string)
    requires |q| > |s|
    ensures !Contains(s, q)
    decreases |s|
  {
    if |s| > 0 {
      LongerNotContained(s[1..], q);
    }
  }

  /** A prefix without the pattern's first character adds no occurrence. */
  lemma {:induction false} ContainsAfterNoChar(a: string, b: string, q: string)
    requires |q| > 0 && (forall i :: 0 <= i < |a| ==> a[i] != q[0]) && !Contains(b, q)
    ensures !Contains(a + b, q)
    decreases |a|
  {
    if |a| > 0 {
      assert (a + b)[0] == a[0];
      assert (a + b)[1..] == a[1..] + b;
      ContainsAfterNoChar(a[1..], b, q);
    } else {
      assert a + b == b;
    }
  }

  /** A prefix without the pattern's first character is copied unchanged. */
  lemma {:induction false} ReplaceAfterNoChar(a: string, b: string, pat: string, rep: string)
    requires |pat| > 0 && forall i :: 0 <= i < |a| ==> a[i] != pat[0]
    ensures Replace(a + b, pat, rep) == a + Replace(b, pat, rep)
    decreases |a|
  {
    if |a| > 0 {
      assert (a + b)[0] == a[0];
      assert (a + b)[1..] == a[1..] + b;
      ReplaceAfterNoChar(a[1..], b, pat, rep);
      assert a == [a[0]] + a[1..];
    } else {
      assert a + b == b;
    }
  }

  /** Replacing a pattern that does not occur changes nothing. */
  lemma {:induction false} ReplaceAbsent(s: string, pat: string, rep: string)
    requires |pat| > 0 && !Contains(s, pat)
    ensures Replace(s, pat, rep) == s
    decreases |s|
  {
    if |s| > 0 {
      ReplaceAbsent(s[1..], pat, rep);
      assert s == [s[0]] + s[1..];
    }
  }
}
