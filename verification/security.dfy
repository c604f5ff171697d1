/** The sanitisation policy of `SecurityManager`: both of its string methods
    apply the same global strip of the characters `<` and `>`. */
module SecurityManager {

  predicate IsBracket(c: char) {
    c == '<' || c == '>'
  }

  /** `s` contains neither `<` nor `>`. */
  predicate NoBrackets(s: string) {
    '<' !in s && '>' !in s
  }

  /** How many characters of `s` the strip removes. */
  function BracketCount(s: string): nat {
    multiset(s)['<'] + multiset(s)['>']
  }

  /** `a` can be obtained from `b` by deleting characters (greedy matching). */
  predicate IsSubsequence(a: string, b: string)
    decreases |b|
  {
    if a == [] then true
    else if b == [] then false
    else if a[0] == b[0] then IsSubsequence(a[1..], b[1..])
    else IsSubsequence(a, b[1..])
  }

  /** The rule `replace(/[<>]/g, '')`: every `<` and `>` is dropped, every
      other character is kept in place. */
  function StripBrackets(s: string): (r: string)
    ensures NoBrackets(r)
  {
    if s == [] then []
    else
      var rest := StripBrackets(s[1..]);
      if IsBracket(s[0]) then rest else [s[0]] + rest
  }

  function SanitizeInput(input: string): (r: string)
    ensures NoBrackets(r)
    ensures NoBrackets(input) ==> r == input
  {
    StripFixedPoint(input);
    StripBrackets(input)
  }

  function ValidateOutput(output: string): (r: string)
    ensures NoBrackets(r)
    ensures r == SanitizeInput(output)
  {
    StripBrackets(output)
  }

  /** The strip shortens its input by exactly the number of brackets in it. */
  lemma {:induction false} StripLength(s: string)
    ensures |StripBrackets(s)| == |s| - BracketCount(s)
  {
    if s != [] {
      assert s == [s[0]] + s[1..];
      assert multiset(s) == multiset([s[0]]) + multiset(s[1..]);
      StripLength(s[1..]);
    }
  }

  /** A string that already has no brackets passes through unchanged, and
      only such strings do. */
  lemma {:induction false} StripFixedPoint(s: string)
    ensures StripBrackets(s) == s <==> NoBrackets(s)
  {
    if s != [] && NoBrackets(s) {
      assert s == [s[0]] + s[1..];
      assert s[0] in s;
      assert NoBrackets(s[1..]) by {
        forall c | c in s[1..] ensures c in s { }
      }
      StripFixedPoint(s[1..]);
    }
  }

  /** Joining two bracket-free strings gives one the strip leaves alone. */
  lemma CleanConcatenation(a: string, b: string)
    requires NoBrackets(a) && NoBrackets(b)
    ensures StripBrackets(a + b) == a + b
  {
    assert NoBrackets(a + b) by {
      forall c | c in a + b ensures c in a || c in b { }
    }
    StripFixedPoint(a + b);
  }

  lemma SanitizeIdempotent(s: string)
    ensures SanitizeInput(SanitizeInput(s)) == SanitizeInput(s)
  {
  }

  /** A leading bracket followed by clean text leaves exactly that text. */
  lemma BracketThenClean(s: string)
    requires s != [] && IsBracket(s[0]) && NoBrackets(s[1..])
    ensures StripBrackets(s) == s[1..]
  {
    StripFixedPoint(s[1..]);
  }

  lemma {:induction false} StripDistributes(a: string, b: string)
    ensures StripBrackets(a + b) == StripBrackets(a) + StripBrackets(b)
  {
    if a == [] {
      assert a + b == b;
    } else {
      assert (a + b)[0] == a[0];
      assert (a + b)[1..] == a[1..] + b;
      StripDistributes(a[1..], b);
    }
  }

  lemma {:induction false} StripIsSubsequence(s: string)
    ensures IsSubsequence(StripBrackets(s), s)
  {
    if s != [] {
      StripIsSubsequence(s[1..]);
      var rest := StripBrackets(s[1..]);
      if !IsBracket(s[0]) {
        assert ([s[0]] + rest)[1..] == rest;
      } else if rest != [] {
        assert rest[0] in rest;
      }
    }
  }

  /** A bracket-free subsequence of `t` is no longer than what the strip keeps. */
  lemma {:induction false} SubsequenceBound(r: string, t: string)
    requires IsSubsequence(r, t) && NoBrackets(r)
    ensures |r| <= |t| - BracketCount(t)
    decreases |t|
  {
    StripLength(t);
    if r != [] {
      assert t == [t[0]] + t[1..];
      assert multiset(t) == multiset([t[0]]) + multiset(t[1..]);
      StripLength(t[1..]);
      assert NoBrackets(r[1..]) by {
        forall c | c in r[1..] ensures c in r { }
      }
      if r[0] == t[0] {
        assert r[0] in r;
        SubsequenceBound(r[1..], t[1..]);
      } else {
        SubsequenceBound(r, t[1..]);
      }
    }
  }

  /** The strip is the unique bracket-free subsequence of `s` that keeps every
      non-bracket character of `s`. */
  lemma {:induction false} StripUnique(s: string, r: string)
    requires IsSubsequence(r, s) && NoBrackets(r)
    requires |r| == |s| - BracketCount(s)
    ensures r == StripBrackets(s)
    decreases |s|
  {
    if s != [] {
      assert s == [s[0]] + s[1..];
      assert multiset(s) == multiset([s[0]]) + multiset(s[1..]);
      StripLength(s[1..]);
      if r == [] {
        if !IsBracket(s[0]) {
          assert false;
        }
      } else {
        assert r[0] in r;
        assert NoBrackets(r[1..]) by {
          forall c | c in r[1..] ensures c in r { }
        }
        if r[0] == s[0] {
          StripUnique(s[1..], r[1..]);
          assert r == [r[0]] + r[1..];
        } else if IsBracket(s[0]) {
          StripUnique(s[1..], r);
        } else {
          SubsequenceBound(r, s[1..]);
          assert false;
        }
      }
    }
  }

  /** Independent characterisation of the sanitiser: `r` is the sanitised
      form of `s` exactly when `r` is a bracket-free subsequence of `s` whose
      length is `|s|` less the number of brackets in `s`. */
  lemma SanitizeCharacterised(s: string, r: string)
    ensures r == SanitizeInput(s) <==>
      IsSubsequence(r, s) && NoBrackets(r) && |r| == |s| - BracketCount(s)
  {
    StripIsSubsequence(s);
    StripLength(s);
    if IsSubsequence(r, s) && NoBrackets(r) && |r| == |s| - BracketCount(s) {
      StripUnique(s, r);
    }
  }

  /** Every non-bracket character occurs as often in the output as in the input. */
  lemma {:induction false} StripKeepsOtherCharacters(s: string, c: char)
    requires !IsBracket(c)
    ensures multiset(StripBrackets(s))[c] == multiset(s)[c]
  {
    if s != [] {
      assert s == [s[0]] + s[1..];
      assert multiset(s) == multiset([s[0]]) + multiset(s[1..]);
      StripKeepsOtherCharacters(s[1..], c);
    }
  }

  /** The markup of a script tag is stripped and its text kept. */
  lemma ScriptSanitised(code: string)
    requires code == "<script>x</script>"
    ensures SanitizeInput(code) == "scriptx/script"
  {
    ElementSanitised("script", "x", code);
  }

  /** An HTML element with a bracket-free name and text loses its angle
      brackets and keeps everything else in order. */
  lemma ElementSanitised(name: string, text: string, element: string)
    requires NoBrackets(name) && NoBrackets(text)
    requires element == ['<'] + name + ['>'] + text + ['<'] + (['/'] + name) + ['>']
    ensures StripBrackets(element) == name + text + (['/'] + name)
  {
    var closeName := ['/'] + name;
    assert NoBrackets(closeName) by {
      forall c | c in closeName ensures c == '/' || c in name { }
    }
    TagSanitised(name);
    TagSanitised(closeName);
    StripFixedPoint(text);
    assert element == (['<'] + name + ['>']) + text + (['<'] + closeName + ['>']);
    StripDistributes((['<'] + name + ['>']) + text, ['<'] + closeName + ['>']);
    StripDistributes(['<'] + name + ['>'], text);
  }

  /** A tag loses its angle brackets and keeps its name. */
  lemma TagSanitised(name: string)
    requires NoBrackets(name)
    ensures StripBrackets(['<'] + name + ['>']) == name
  {
    StripDistributes(['<'] + name, ['>']);
    BracketThenClean(['<'] + name);
    assert (['<'] + name)[1..] == name;
  }
}
