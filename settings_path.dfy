/** Settings paths as the `octoprint config` commands take them
    (`_to_settings_path` in src/octoprint/cli/config.py).

    A path is given either as dotted text typed on the command line, which is
    split on `.`, each piece stripped of surrounding whitespace and the empty
    pieces dropped, or as a list (or tuple) of segments, which is used as it is.
 */
module SettingsPath {

  /** The two shapes a path argument can have. */
  datatype PathArg = Dotted(text: string) | Segments(segments: seq<string>)

  /** The whitespace that Python 2.7's `unicode.strip()` removes (Unicode 5.2,
      where U+180E is still a space separator). */
  predicate IsSpace(c: char)
  {
    || ('\t' <= c <= '\r')
    || ('\U{1c}' <= c <= ' ')
    || c == '\U{85}'
    || c == '\U{a0}'
    || c == '\U{1680}'
    || c == '\U{180e}'
    || ('\U{2000}' <= c <= '\U{200a}')
    || c == '\U{2028}'
    || c == '\U{2029}'
    || c == '\U{202f}'
    || c == '\U{205f}'
    || c == '\U{3000}'
  }

  predicate AllSpace(s: string)
  {
    forall i :: 0 <= i < |s| ==> IsSpace(s[i])
  }

  /** No whitespace at either end (the fixed points of `strip()`). */
  predicate Tight(s: string)
  {
    s == [] || (!IsSpace(s[0]) && !IsSpace(s[|s| - 1]))
  }

  /** A segment of a normalised path: non-empty, dot-free, no outer whitespace. */
  predicate IsSegment(t: string)
  {
    t != [] && '.' !in t && Tight(t)
  }

  // ---------------------------------------------------------------------
  // str.split(sep) and its inverse sep.join(parts)
  // ---------------------------------------------------------------------

  /** Python's `s.split(sep)` for a one-character separator: every piece
      between separators, including empty ones, so there is always one piece
      more than there are separators. */
  function Split(s: string, sep: char): (parts: seq<string>)
    ensures |parts| >= 1
    ensures forall i :: 0 <= i < |parts| ==> sep !in parts[i]
  {
    if s == [] then [[]]
    else
      var rest := Split(s[1..], sep);
      if s[0] == sep then [[]] + rest
      else [[s[0]] + rest[0]] + rest[1..]
  }

  /** Python's `sep.join(parts)`. */
  function Join(parts: seq<string>, sep: char): string
  {
    if |parts| == 0 then []
    else if |parts| == 1 then parts[0]
    else parts[0] + [sep] + Join(parts[1..], sep)
  }

  /** Joining the pieces of a split gives the text back. */
  lemma {:induction false} JoinSplit(s: string, sep: char)
    ensures Join(Split(s, sep), sep) == s
  {
    if s != [] {
      var rest := Split(s[1..], sep);
      JoinSplit(s[1..], sep);
      if s[0] == sep {
        assert ([[]] + rest)[1..] == rest;
      } else {
        var parts := [[s[0]] + rest[0]] + rest[1..];
        assert parts[1..] == rest[1..];
        if |rest| > 1 {
          assert Join(rest, sep) == rest[0] + [sep] + Join(rest[1..], sep);
        }
      }
    }
  }

  /** Splitting at a separator splits the two sides independently. */
  lemma {:induction false} SplitAround(a: string, b: string, sep: char)
    ensures Split(a + [sep] + b, sep) == Split(a, sep) + Split(b, sep)
  {
    if a == [] {
      assert a + [sep] + b == [sep] + b;
      SplitCons(sep, b, sep);
    } else {
      var x := a[1..] + [sep] + b;
      assert a + [sep] + b == [a[0]] + x;
      assert [a[0]] + a[1..] == a;
      SplitAround(a[1..], b, sep);
      SplitCons(a[0], x, sep);
      SplitCons(a[0], a[1..], sep);
      if a[0] != sep {
        GlueFirst([a[0]], Split(a[1..], sep), Split(b, sep));
      }
    }
  }

  /** One unfolding of `Split` for text that starts with `c`. */
  lemma SplitCons(c: char, x: string, sep: char)
    ensures Split([c] + x, sep) == if c == sep then [[]] + Split(x, sep)
            else [[c] + Split(x, sep)[0]] + Split(x, sep)[1..]
  {
    assert ([c] + x)[0] == c && ([c] + x)[1..] == x;
  }

  lemma GlueFirst(p: string, xs: seq<string>, ys: seq<string>)
    requires |xs| >= 1
    ensures [p + (xs + ys)[0]] + (xs + ys)[1..] == ([p + xs[0]] + xs[1..]) + ys
  {
    assert (xs + ys)[0] == xs[0] && (xs + ys)[1..] == xs[1..] + ys;
  }

  /** Text without a separator splits into itself alone. */
  lemma {:induction false} SplitWithoutSep(s: string, sep: char)
    requires sep !in s
    ensures Split(s, sep) == [s]
  {
    if s != [] {
      SplitWithoutSep(s[1..], sep);
      assert [s[0]] + s[1..] == s;
    }
  }

  /** Splitting a join of separator-free pieces gives the pieces back. */
  lemma {:induction false} SplitJoin(parts: seq<string>, sep: char)
    requires |parts| >= 1
    requires forall i :: 0 <= i < |parts| ==> sep !in parts[i]
    ensures Split(Join(parts, sep), sep) == parts
  {
    SplitWithoutSep(parts[0], sep);
    if |parts| > 1 {
      SplitJoin(parts[1..], sep);
      SplitAround(parts[0], Join(parts[1..], sep), sep);
      assert [parts[0]] + parts[1..] == parts;
    }
  }

  // ---------------------------------------------------------------------
  // str.strip()
  // ---------------------------------------------------------------------

  /** The first index at or after `i` whose character is not whitespace. */
  function SkipSpace(s: string, i: nat): (j: nat)
    requires i <= |s|
    ensures i <= j <= |s|
    ensures forall k :: i <= k < j ==> IsSpace(s[k])
    ensures j == |s| || !IsSpace(s[j])
    decreases |s| - i
  {
    if i < |s| && IsSpace(s[i]) then SkipSpace(s, i + 1) else i
  }

  /** Where `s[lo..hi]` ends once its trailing whitespace is dropped. */
  function DropSpace(s: string, lo: nat, hi: nat): (j: nat)
    requires lo <= hi <= |s|
    ensures lo <= j <= hi
    ensures forall k :: j <= k < hi ==> IsSpace(s[k])
    ensures j == lo || !IsSpace(s[j - 1])
  {
    if lo < hi && IsSpace(s[hi - 1]) then DropSpace(s, lo, hi - 1) else hi
  }

  /** Where the stripped text starts and ends in `s`. */
  function StripStart(s: string): nat
  {
    SkipSpace(s, 0)
  }

  function StripEnd(s: string): (j: nat)
    ensures StripStart(s) <= j <= |s|
  {
    DropSpace(s, StripStart(s), |s|)
  }

  /** `s.strip()`: `s` is whitespace, then the result, then whitespace; the
      result has no whitespace at either end, is empty exactly when `s` is
      blank, and is `s` itself when `s` has none at either end. */
  function Strip(s: string): (r: string)
    ensures r == s[StripStart(s)..StripEnd(s)]
    ensures forall k :: 0 <= k < StripStart(s) ==> IsSpace(s[k])
    ensures forall k :: StripEnd(s) <= k < |s| ==> IsSpace(s[k])
    ensures Tight(r)
    ensures r == [] <==> AllSpace(s)
    ensures Tight(s) ==> r == s
  {
    var i, j := StripStart(s), StripEnd(s);
    var r := s[i..j];
    assert r != [] ==> r[0] == s[i] && r[|r| - 1] == s[j - 1];
    assert AllSpace(s) ==> i == |s|;
    r
  }

  /** Any split of `s` into whitespace, a tight middle and whitespace has
      `Strip(s)` as its middle: the contract of `Strip` determines it. */
  lemma StripUnique(s: string, i: nat, t: string)
    requires i + |t| <= |s| && s[i..i + |t|] == t
    requires forall k :: 0 <= k < i ==> IsSpace(s[k])
    requires forall k :: i + |t| <= k < |s| ==> IsSpace(s[k])
    requires Tight(t)
    ensures t == Strip(s)
  {
    var r := Strip(s);
    var j := StripStart(s);
    assert t == [] <==> AllSpace(s) by {
      if t != [] {
        assert s[i] == t[0];
      }
    }
    if t != [] && r != [] {
      assert s[i] == t[0] && s[j] == r[0];
      assert i == j;
      assert s[i + |t| - 1] == t[|t| - 1] && s[j + |r| - 1] == r[|r| - 1];
      assert |t| == |r|;
    }
  }

  // ---------------------------------------------------------------------
  // _to_settings_path
  // ---------------------------------------------------------------------

  /** The clean-up after splitting: every piece stripped, the pieces left
      empty dropped, order kept. */
  function Tidy(parts: seq<string>): (r: seq<string>)
    ensures |r| <= |parts|
    ensures forall i :: 0 <= i < |r| ==> r[i] != [] && Tight(r[i])
  {
    if parts == [] then []
    else
      var head := Strip(parts[0]);
      if head == [] then Tidy(parts[1..]) else [head] + Tidy(parts[1..])
  }

  /** `strip()` introduces no character. */
  lemma StripKeepsOut(s: string, c: char)
    requires c !in s
    ensures c !in Strip(s)
  {
    InfixKeepsOut(s, StripStart(s), Strip(s), c);
  }

  lemma InfixKeepsOut(s: string, i: nat, r: string, c: char)
    requires i + |r| <= |s| && s[i..i + |r|] == r
    requires c !in s
    ensures c !in r
  {
    forall k | 0 <= k < |r|
      ensures r[k] != c
    {
      assert r[k] == s[i + k];
    }
  }

  /** Tidying introduces no character. */
  lemma {:induction false} TidyKeepsOut(parts: seq<string>, c: char)
    requires forall i :: 0 <= i < |parts| ==> c !in parts[i]
    ensures forall i :: 0 <= i < |Tidy(parts)| ==> c !in Tidy(parts)[i]
  {
    if parts != [] {
      StripKeepsOut(parts[0], c);
      TidyKeepsOut(parts[1..], c);
    }
  }

  /** The canonical path of a path argument. */
  function ToSettingsPath(p: PathArg): (path: seq<string>)
    ensures p.Segments? ==> path == p.segments
    ensures p.Dotted? ==> forall i :: 0 <= i < |path| ==> IsSegment(path[i])
  {
    match p
    case Segments(segments) => segments
    case Dotted(text) =>
      TidyKeepsOut(Split(text, '.'), '.');
      Tidy(Split(text, '.'))
  }

  lemma {:induction false} TidyAppend(a: seq<string>, b: seq<string>)
    ensures Tidy(a + b) == Tidy(a) + Tidy(b)
  {
    if a != [] {
      var ab := a + b;
      assert ab[0] == a[0] && ab[1..] == a[1..] + b;
      TidyAppend(a[1..], b);
      var head := Strip(a[0]);
      if head == [] {
        assert Tidy(ab) == Tidy(a[1..] + b);
      } else {
        assert Tidy(ab) == [head] + Tidy(a[1..] + b);
        assert Tidy(a) == [head] + Tidy(a[1..]);
      }
    } else {
      assert a + b == b;
    }
  }

  /** Text around a dot normalises to the two sides' paths, one after the
      other: pieces are never merged, reordered or split further. */
  lemma DottedAround(a: string, b: string)
    ensures ToSettingsPath(Dotted(a + "." + b))
         == ToSettingsPath(Dotted(a)) + ToSettingsPath(Dotted(b))
  {
    SplitAround(a, b, '.');
    TidyAppend(Split(a, '.'), Split(b, '.'));
  }

  /** Dot-free text normalises to its stripped self, or to nothing when it is
      blank. With DottedAround this determines the normalisation of any text. */
  lemma DottedPiece(a: string)
    requires '.' !in a
    ensures ToSettingsPath(Dotted(a)) == if AllSpace(a) then [] else [Strip(a)]
  {
    SplitWithoutSep(a, '.');
    assert [a][1..] == [];
  }

  /** Only dots and whitespace. */
  predicate Blank(s: string)
  {
    forall i :: 0 <= i < |s| ==> s[i] == '.' || IsSpace(s[i])
  }

  lemma TidyCons(x: string, t: seq<string>)
    ensures Tidy([x] + t) == Tidy(t) <==> AllSpace(x)
    ensures Tidy([x] + t) == [] <==> AllSpace(x) && Tidy(t) == []
  {
    assert ([x] + t)[0] == x && ([x] + t)[1..] == t;
  }

  lemma BlankCons(s: string)
    requires s != []
    ensures Blank(s) <==> (s[0] == '.' || IsSpace(s[0])) && Blank(s[1..])
  {
    assert forall i :: 1 <= i < |s| ==> s[i] == s[1..][i - 1];
  }

  lemma AllSpaceCons(c: char, x: string)
    ensures AllSpace([c] + x) <==> IsSpace(c) && AllSpace(x)
  {
    var s := [c] + x;
    if IsSpace(c) && AllSpace(x) {
      forall i | 0 <= i < |s|
        ensures IsSpace(s[i])
      {
        if i > 0 {
          assert s[i] == x[i - 1];
        }
      }
    }
    if AllSpace(s) {
      assert s[0] == c;
      forall j | 0 <= j < |x|
        ensures IsSpace(x[j])
      {
        assert x[j] == s[j + 1];
      }
    }
  }

  /** A string path normalises to the root path exactly when it holds nothing
      but dots and whitespace. */
  lemma {:induction false} RootPath(s: string)
    ensures ToSettingsPath(Dotted(s)) == [] <==> Blank(s)
  {
    if s != [] {
      RootPath(s[1..]);
      BlankCons(s);
      var rest := Split(s[1..], '.');
      var head, tail := rest[0], rest[1..];
      assert rest == [head] + tail;
      TidyCons(head, tail);
      if s[0] == '.' {
        assert Split(s, '.') == [[]] + rest;
        TidyCons([], rest);
      } else {
        assert Split(s, '.') == [[s[0]] + head] + tail;
        TidyCons([s[0]] + head, tail);
        AllSpaceCons(s[0], head);
      }
    }
  }

  /** A canonical path survives being written out with dots and read back. */
  lemma CanonicalRoundTrip(path: seq<string>)
    requires forall i :: 0 <= i < |path| ==> IsSegment(path[i])
    ensures ToSettingsPath(Dotted(Join(path, '.'))) == path
  {
    if path != [] {
      SplitJoin(path, '.');
      TidyCanonical(path);
    }
  }

  lemma {:induction false} TidyCanonical(path: seq<string>)
    requires forall i :: 0 <= i < |path| ==> IsSegment(path[i])
    ensures Tidy(path) == path
  {
    if path != [] {
      TidyCanonical(path[1..]);
    }
  }

  /** Normalising is idempotent through the dotted form. */
  lemma NormaliseIdempotent(s: string)
    ensures var path := ToSettingsPath(Dotted(s));
            ToSettingsPath(Dotted(Join(path, '.'))) == path
  {
    CanonicalRoundTrip(ToSettingsPath(Dotted(s)));
  }
}
