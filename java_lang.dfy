/**
  The few pieces of java.lang and java.util that the code generator leans on,
  stated over Dafny values: null references, the exceptions the generator can
  raise, ASCII case mapping, `String.split` with a one-character pattern,
  `String.replaceAll` of one character by another, string concatenation of a
  possibly null reference, and the ordinal order of `String.compareTo`.
*/
module JavaLang {

  /** A Java reference that may be null. */
  datatype Option<+T> = None | Some(value: T)

  /** The runtime exceptions the modelled code can throw. */
  datatype JavaException = NullPointerException | ClassCastException | StringIndexOutOfBoundsException

  /** A Java computation either returns a value or throws. */
  datatype Result<+T> = Ok(value: T) | Throws(exception: JavaException)

  /** `"" + ref` in Java: a null reference is printed as "null". */
  function Str(o: Option<string>): (r: string)
    ensures o.Some? ==> r == o.value
    ensures o.None? ==> r == "null"
  {
    match o
    case None => "null"
    case Some(s) => s
  }

  // ---------------------------------------------------------------- case mapping (ASCII)

  predicate IsUpperAscii(c: char) { 'A' <= c <= 'Z' }
  predicate IsLowerAscii(c: char) { 'a' <= c <= 'z' }

  function LowerChar(c: char): char
  {
    if IsUpperAscii(c) then (c as int + 32) as char else c
  }

  function UpperChar(c: char): char
  {
    if IsLowerAscii(c) then (c as int - 32) as char else c
  }

  /** `String.toLowerCase()`, restricted to the ASCII letters. */
  function ToLower(s: string): (r: string)
    ensures |r| == |s|
    ensures forall i :: 0 <= i < |s| ==> r[i] == LowerChar(s[i])
  {
    seq(|s|, i requires 0 <= i < |s| => LowerChar(s[i]))
  }

  /** `String.toUpperCase()`, restricted to the ASCII letters. */
  function ToUpper(s: string): (r: string)
    ensures |r| == |s|
    ensures forall i :: 0 <= i < |s| ==> r[i] == UpperChar(s[i])
  {
    seq(|s|, i requires 0 <= i < |s| => UpperChar(s[i]))
  }

  /** `a.equalsIgnoreCase(b)` over ASCII: same length and the same letters up to case. */
  predicate EqualsIgnoreCase(a: string, b: string)
  {
    |a| == |b| && forall i :: 0 <= i < |a| ==> LowerChar(a[i]) == LowerChar(b[i])
  }

  lemma EqualsIgnoreCaseIsLowerEquality(a: string, b: string)
    ensures EqualsIgnoreCase(a, b) <==> ToLower(a) == ToLower(b)
  {
    if ToLower(a) == ToLower(b) {
      assert |a| == |b|;
      forall i | 0 <= i < |a| ensures LowerChar(a[i]) == LowerChar(b[i]) {
        assert ToLower(a)[i] == ToLower(b)[i];
      }
    }
  }

  // ---------------------------------------------------------------- replaceAll

  /** `s.replaceAll(from, to)` where the pattern is one literal character. */
  function ReplaceChar(s: string, from: char, to: char): (r: string)
    ensures |r| == |s|
    ensures forall i :: 0 <= i < |s| ==> r[i] == (if s[i] == from then to else s[i])
  {
    seq(|s|, i requires 0 <= i < |s| => if s[i] == from then to else s[i])
  }

  // ---------------------------------------------------------------- split

  /**
    Every piece between occurrences of `sep`, empty pieces included: the
    string cut at each separator, before any trailing empties are removed.
  */
  function Pieces(s: string, sep: char): (r: seq<string>)
    ensures |r| >= 1
    decreases |s|
  {
    if s == [] then [""]
    else
      var rest := Pieces(s[1..], sep);
      if s[0] == sep then [""] + rest
      else [[s[0]] + rest[0]] + rest[1..]
  }

  /** The inverse of `Pieces`: the pieces put back together with `sep` between them. */
  function Join(parts: seq<string>, sep: char): string
    requires |parts| >= 1
    decreases |parts|
  {
    if |parts| == 1 then parts[0] else parts[0] + [sep] + Join(parts[1..], sep)
  }

  /** Java's split removes every empty string at the end of the result. */
  function DropTrailingEmpty(parts: seq<string>): (r: seq<string>)
    ensures |r| <= |parts| && r == parts[..|r|]
    ensures r != [] ==> r[|r| - 1] != ""
    ensures forall i :: |r| <= i < |parts| ==> parts[i] == ""
  {
    if parts == [] then []
    else if parts[|parts| - 1] == "" then DropTrailingEmpty(parts[..|parts| - 1])
    else parts
  }

  /**
    `s.split(String.valueOf(sep))` for a character that is not a regular
    expression metacharacter, as Java 8 and later define it: a string with no
    separator splits into itself (so "" gives [""]); otherwise the pieces are
    kept, a leading empty piece included, and the trailing empty ones dropped.
  */
  function Split(s: string, sep: char): (r: seq<string>)
    ensures |r| <= |s| + 1
    ensures s != "" && r != [] ==> r[|r| - 1] != ""
  {
    if s == "" then [""]
    else
      PiecesLength(s, sep);
      DropTrailingEmpty(Pieces(s, sep))
  }

  lemma {:induction false} PiecesLength(s: string, sep: char)
    ensures |Pieces(s, sep)| <= |s| + 1
    decreases |s|
  {
    if s != [] {
      PiecesLength(s[1..], sep);
    }
  }

  lemma {:induction false} PiecesHaveNoSeparator(s: string, sep: char)
    ensures forall i :: 0 <= i < |Pieces(s, sep)| ==> sep !in Pieces(s, sep)[i]
    decreases |s|
  {
    if s != [] {
      PiecesHaveNoSeparator(s[1..], sep);
    }
  }

  /** Cutting a string and gluing the pieces back gives the string. */
  lemma {:induction false} JoinPieces(s: string, sep: char)
    ensures Join(Pieces(s, sep), sep) == s
    decreases |s|
  {
    if s != [] {
      var rest := Pieces(s[1..], sep);
      JoinPieces(s[1..], sep);
      if s[0] == sep {
        assert Pieces(s, sep)[1..] == rest;
      } else {
        var r := Pieces(s, sep);
        if |rest| == 1 {
          assert r == [[s[0]] + rest[0]];
        } else {
          assert r[1..] == rest[1..];
          assert Join(rest, sep) == rest[0] + [sep] + Join(rest[1..], sep);
        }
      }
    }
  }

  /** Gluing separator-free pieces and cutting again gives the pieces. */
  lemma {:induction false} PiecesOfJoin(parts: seq<string>, sep: char)
    requires |parts| >= 1
    requires forall i :: 0 <= i < |parts| ==> sep !in parts[i]
    ensures Pieces(Join(parts, sep), sep) == parts
    decreases |parts|, |parts[0]|
  {
    if |parts| == 1 {
      PiecesOfWord(parts[0], sep);
    } else if parts[0] == "" {
      PiecesOfJoin(parts[1..], sep);
      EmptyHeadStep(parts, sep);
    } else {
      ShorterSeparatorFree(parts, sep);
      PiecesOfJoin([parts[0][1..]] + parts[1..], sep);
      assert parts[0][0] != sep by { assert parts[0][0] in parts[0]; }
      FirstCharStep(parts, sep);
    }
  }

  /** The step of `PiecesOfJoin` when the first part is empty. */
  lemma EmptyHeadStep(parts: seq<string>, sep: char)
    requires |parts| >= 2 && parts[0] == ""
    requires Pieces(Join(parts[1..], sep), sep) == parts[1..]
    ensures Pieces(Join(parts, sep), sep) == parts
  {
    var tail := parts[1..];
    assert Join(parts, sep) == [sep] + Join(tail, sep);
    assert ([sep] + Join(tail, sep))[1..] == Join(tail, sep);
    assert parts == [""] + tail;
  }

  /** The step of `PiecesOfJoin` when the first part starts with a character other than `sep`. */
  lemma FirstCharStep(parts: seq<string>, sep: char)
    requires |parts| >= 2 && parts[0] != "" && parts[0][0] != sep
    requires Pieces(Join([parts[0][1..]] + parts[1..], sep), sep) == [parts[0][1..]] + parts[1..]
    ensures Pieces(Join(parts, sep), sep) == parts
  {
    var w := parts[0];
    var tail := parts[1..];
    var shorter := [w[1..]] + tail;
    assert parts == [w] + tail;
    var rest := Join(shorter, sep);
    JoinFirstChar(w, tail, sep);
    assert Join(parts, sep) == [w[0]] + rest;
    PiecesFirstChar(w[0], rest, sep);
    assert [w[0]] + w[1..] == w;
    assert Pieces(Join(parts, sep), sep) == [[w[0]] + w[1..]] + tail;
  }

  /** Dropping the first character of the first part keeps every part free of `sep`. */
  lemma ShorterSeparatorFree(parts: seq<string>, sep: char)
    requires |parts| >= 2 && parts[0] != ""
    requires forall i :: 0 <= i < |parts| ==> sep !in parts[i]
    ensures forall i :: 0 <= i < |parts| ==> sep !in ([parts[0][1..]] + parts[1..])[i]
  {
    var w := parts[0];
    assert sep !in w[1..] by {
      forall k | 0 <= k < |w[1..]| ensures w[1..][k] != sep { assert w[1..][k] == w[k + 1]; }
    }
    forall i | 1 <= i < |parts| ensures ([w[1..]] + parts[1..])[i] == parts[i] { }
  }

  lemma JoinFirstChar(w: string, tail: seq<string>, sep: char)
    requires w != "" && |tail| >= 1
    ensures Join([w] + tail, sep) == [w[0]] + Join([w[1..]] + tail, sep)
  {
    assert ([w] + tail)[1..] == tail;
    assert ([w[1..]] + tail)[1..] == tail;
    assert w == [w[0]] + w[1..];
  }

  lemma PiecesFirstChar(c: char, s: string, sep: char)
    requires c != sep
    ensures Pieces([c] + s, sep) == [[c] + Pieces(s, sep)[0]] + Pieces(s, sep)[1..]
  {
    assert ([c] + s)[1..] == s;
  }

  lemma {:induction false} PiecesOfWord(w: string, sep: char)
    requires sep !in w
    ensures Pieces(w, sep) == [w]
    decreases |w|
  {
    if w != [] {
      assert sep !in w[1..] by {
        forall k | 0 <= k < |w[1..]| ensures w[1..][k] != sep { assert w[1..][k] == w[k + 1]; }
      }
      PiecesOfWord(w[1..], sep);
      assert [w[0]] + w[1..] == w;
    }
  }

  lemma JoinThree(a: string, b: string, c: string, sep: char)
    ensures Join([a, b, c], sep) == a + [sep] + b + [sep] + c
  {
    assert [a, b, c][1..] == [b, c];
    assert [b, c][1..] == [c];
    assert Join([b, c], sep) == b + [sep] + c;
  }

  lemma JoinFour(a: string, b: string, c: string, d: string, sep: char)
    ensures Join([a, b, c, d], sep) == a + [sep] + b + [sep] + c + [sep] + d
  {
    assert [a, b, c, d][1..] == [b, c, d];
    JoinThree(b, c, d, sep);
  }

  lemma {:induction false} JoinAppendEmpty(parts: seq<string>, sep: char)
    requires |parts| >= 1
    ensures Join(parts + [""], sep) == Join(parts, sep) + [sep]
    decreases |parts|
  {
    if |parts| == 1 {
      assert (parts + [""])[1..] == [""];
    } else {
      assert (parts + [""])[1..] == parts[1..] + [""];
      JoinAppendEmpty(parts[1..], sep);
    }
  }

  /**
    What `Split` gives back: separator-free pieces whose last one is not
    empty, which glued together and followed by some number of separators
    rebuild the input; a non-empty input made only of separators gives [].
  */
  lemma SplitCharacterised(s: string, sep: char)
    requires s != ""
    ensures forall i :: 0 <= i < |Split(s, sep)| ==> sep !in Split(s, sep)[i]
    ensures Split(s, sep) != [] ==> Split(s, sep)[|Split(s, sep)| - 1] != ""
    ensures Split(s, sep) != [] ==>
      exists k: nat :: s == Join(Split(s, sep), sep) + Separators(k, sep)
    ensures Split(s, sep) == [] <==> forall i :: 0 <= i < |s| ==> s[i] == sep
  {
    var p := Pieces(s, sep);
    var r := Split(s, sep);
    PiecesHaveNoSeparator(s, sep);
    JoinPieces(s, sep);
    if r == [] {
      AllEmptyPiecesJoin(p, sep);
    } else {
      TrailingJoin(p, |r|, sep);
      var k := |p| - |r|;
      assert p[..|r|] == r;
      assert s == Join(r, sep) + Separators(k, sep);
      LastCharOfJoin(r, sep);
      assert s[|Join(r, sep)| - 1] != sep;
    }
  }

  /** `k` copies of the separator. */
  function Separators(k: nat, sep: char): (r: string)
    ensures |r| == k && forall i :: 0 <= i < k ==> r[i] == sep
  {
    seq(k, _ => sep)
  }

  /** Dropping `|parts| - n` trailing empty pieces removes as many trailing separators. */
  lemma {:induction false} TrailingJoin(parts: seq<string>, n: nat, sep: char)
    requires 1 <= n <= |parts|
    requires forall i :: n <= i < |parts| ==> parts[i] == ""
    ensures Join(parts, sep) == Join(parts[..n], sep) + Separators(|parts| - n, sep)
    decreases |parts|
  {
    if n < |parts| {
      var init := parts[..|parts| - 1];
      TrailingJoin(init, n, sep);
      assert parts == init + [""];
      JoinAppendEmpty(init, sep);
      assert init[..n] == parts[..n];
      assert Separators(|init| - n, sep) + [sep] == Separators(|parts| - n, sep);
    } else {
      assert parts[..n] == parts;
    }
  }

  lemma {:induction false} AllEmptyPiecesJoin(parts: seq<string>, sep: char)
    requires |parts| >= 1
    requires forall i :: 0 <= i < |parts| ==> parts[i] == ""
    ensures forall i :: 0 <= i < |Join(parts, sep)| ==> Join(parts, sep)[i] == sep
    decreases |parts|
  {
    if |parts| > 1 {
      AllEmptyPiecesJoin(parts[1..], sep);
    }
  }

  lemma {:induction false} LastCharOfJoin(parts: seq<string>, sep: char)
    requires |parts| >= 1
    requires parts[|parts| - 1] != ""
    requires forall i :: 0 <= i < |parts| ==> sep !in parts[i]
    ensures |Join(parts, sep)| > 0 && Join(parts, sep)[|Join(parts, sep)| - 1] != sep
    decreases |parts|
  {
    if |parts| == 1 {
      var w := parts[0];
      assert w[|w| - 1] in w;
    } else {
      LastCharOfJoin(parts[1..], sep);
    }
  }

  /** Split is a left inverse of Join on separator-free pieces with a non-empty last piece. */
  lemma SplitOfJoin(parts: seq<string>, sep: char)
    requires |parts| >= 1 && parts[|parts| - 1] != ""
    requires forall i :: 0 <= i < |parts| ==> sep !in parts[i]
    ensures Split(Join(parts, sep), sep) == parts
  {
    PiecesOfJoin(parts, sep);
    LastCharOfJoin(parts, sep);
  }

  /** Two separator-free words joined by `sep`, the last not empty, split back into themselves. */
  lemma SplitTwo(a: string, b: string, sep: char)
    requires sep !in a && sep !in b && b != ""
    ensures Split(a + [sep] + b, sep) == [a, b]
  {
    var parts := [a, b];
    assert parts[1..] == [b];
    assert Join(parts, sep) == a + [sep] + b;
    assert forall i :: 0 <= i < |parts| ==> sep !in parts[i];
    SplitOfJoin(parts, sep);
  }

  /** Three separator-free words joined by `sep`, the last not empty, split back into themselves. */
  lemma SplitThree(a: string, b: string, c: string, sep: char)
    requires sep !in a && sep !in b && sep !in c && c != ""
    ensures Split(a + [sep] + b + [sep] + c, sep) == [a, b, c]
  {
    var parts := [a, b, c];
    JoinThree(a, b, c, sep);
    assert forall i :: 0 <= i < |parts| ==> sep !in parts[i];
    SplitOfJoin(parts, sep);
  }

  /** Four separator-free words joined by `sep`, the last not empty, split back into themselves. */
  lemma SplitFour(a: string, b: string, c: string, d: string, sep: char)
    requires sep !in a && sep !in b && sep !in c && sep !in d && d != ""
    ensures Split(a + [sep] + b + [sep] + c + [sep] + d, sep) == [a, b, c, d]
  {
    var parts := [a, b, c, d];
    JoinFour(a, b, c, d, sep);
    assert forall i :: 0 <= i < |parts| ==> sep !in parts[i];
    SplitOfJoin(parts, sep);
  }

  // ---------------------------------------------------------------- compareTo

  /**
    The UTF-16 code units a Java string holds for one character: the code
    point itself below U+10000, otherwise a high surrogate carrying the top
    ten bits of the offset from U+10000 and a low surrogate carrying the
    bottom ten.
  */
  function CodeUnits(c: char): (r: seq<int>)
    ensures |r| == 1 <==> c as int < 0x10000
    ensures |r| == 1 ==> r[0] == c as int && !(0xD800 <= r[0] < 0xDC00)
    ensures |r| == 2 ==> 0xD800 <= r[0] < 0xDC00 && 0xDC00 <= r[1] < 0xE000
    ensures |r| == 2 ==> 0x10000 + (r[0] - 0xD800) * 0x400 + (r[1] - 0xDC00) == c as int
  {
    var n := c as int;
    if n < 0x10000 then [n]
    else [0xD800 + (n - 0x10000) / 0x400, 0xDC00 + (n - 0x10000) % 0x400]
  }

  /** The UTF-16 encoding of a string: its characters' code units in order. */
  function Utf16(s: string): seq<int>
  {
    if s == [] then [] else CodeUnits(s[0]) + Utf16(s[1..])
  }

  /** Lexicographic order on code units, a proper prefix coming first. */
  predicate UnitsNotAfter(a: seq<int>, b: seq<int>)
    decreases |a|
  {
    if a == [] then true
    else if b == [] then false
    else if a[0] != b[0] then a[0] < b[0]
    else UnitsNotAfter(a[1..], b[1..])
  }

  /**
    Where a character falls in UTF-16 code-unit order: those below U+D800
    by code point, then those above U+FFFF (whose high surrogates come
    next), then those from U+E000 to U+FFFF.
  */
  function UnitRank(c: char): int
  {
    var n := c as int;
    if n < 0xD800 then n
    else if n < 0x10000 then n + 0x110000
    else n - 0x10000 + 0xD800
  }

  /**
    `a.compareTo(b) <= 0`: ordinal, character by character, a proper prefix
    coming first, two different characters ordered as their UTF-16 code
    units are (`NotAfterIsCodeUnitOrder`).
  */
  predicate NotAfter(a: string, b: string)
    decreases |a|
  {
    if a == [] then true
    else if b == [] then false
    else if a[0] != b[0] then UnitRank(a[0]) < UnitRank(b[0])
    else NotAfter(a[1..], b[1..])
  }

  /** A shared first character's code units decide nothing. */
  lemma {:induction false} UnitsCommonPrefix(u: seq<int>, x: seq<int>, y: seq<int>)
    ensures UnitsNotAfter(u + x, u + y) == UnitsNotAfter(x, y)
    decreases |u|
  {
    if u == [] {
      assert u + x == x && u + y == y;
    } else {
      assert (u + x)[1..] == u[1..] + x && (u + y)[1..] == u[1..] + y;
      UnitsCommonPrefix(u[1..], x, y);
    }
  }

  /** Between two different characters, their first differing code unit follows `UnitRank`. */
  lemma RankDecides(x: char, y: char, s: seq<int>, t: seq<int>)
    requires x != y
    ensures UnitsNotAfter(CodeUnits(x) + s, CodeUnits(y) + t) == (UnitRank(x) < UnitRank(y))
  {
    var u, v := CodeUnits(x), CodeUnits(y);
    var p, q := u + s, v + t;
    assert p[0] == u[0] && q[0] == v[0];
    if u[0] == v[0] {
      assert |u| == 2 && |v| == 2;
      assert p[1] == u[1] && q[1] == v[1];
      assert u[1] != v[1];
      assert UnitsNotAfter(p, q) == UnitsNotAfter(p[1..], q[1..]);
      assert p[1..][0] == u[1] && q[1..][0] == v[1];
    }
  }

  /**
    `NotAfter` is Java's `compareTo(...) <= 0`: the UTF-16 code units of
    the two strings compared in order, a proper prefix coming first.
  */
  lemma {:induction false} NotAfterIsCodeUnitOrder(a: string, b: string)
    ensures NotAfter(a, b) == UnitsNotAfter(Utf16(a), Utf16(b))
    decreases |a|
  {
    if a != [] && b != [] {
      if a[0] == b[0] {
        UnitsCommonPrefix(CodeUnits(a[0]), Utf16(a[1..]), Utf16(b[1..]));
        NotAfterIsCodeUnitOrder(a[1..], b[1..]);
      } else {
        RankDecides(a[0], b[0], Utf16(a[1..]), Utf16(b[1..]));
      }
    }
  }

  /** A string never comes after a string it is a prefix of. */
  lemma {:induction false} PrefixNotAfter(a: string, t: string)
    ensures NotAfter(a, a + t)
    decreases |a|
  {
    if a != [] {
      assert (a + t)[0] == a[0] && (a + t)[1..] == a[1..] + t;
      PrefixNotAfter(a[1..], t);
    }
  }

  /**
    U+1F600 sorts before U+FF21: its high surrogate 0xD83D is below 0xFF21,
    although its code point is above.
  */
  lemma SurrogatePairFirst()
    ensures Utf16("\U{1F600}") == [0xD83D, 0xDE00] && Utf16("\U{FF21}") == [0xFF21]
    ensures NotAfter("\U{1F600}", "\U{FF21}") && !NotAfter("\U{FF21}", "\U{1F600}")
  {
    assert CodeUnits('\U{1F600}') == [0xD83D, 0xDE00];
  }

  lemma {:induction false} NotAfterTotal(a: string, b: string)
    ensures NotAfter(a, b) || NotAfter(b, a)
    decreases |a|
  {
    if a != [] && b != [] && a[0] == b[0] {
      NotAfterTotal(a[1..], b[1..]);
    }
  }

  lemma {:induction false} NotAfterTransitive(a: string, b: string, c: string)
    requires NotAfter(a, b) && NotAfter(b, c)
    ensures NotAfter(a, c)
    decreases |a|
  {
    if a != [] && b != [] && c != [] && a[0] == b[0] && b[0] == c[0] {
      NotAfterTransitive(a[1..], b[1..], c[1..]);
    }
  }

  lemma {:induction false} NotAfterAntisymmetric(a: string, b: string)
    requires NotAfter(a, b) && NotAfter(b, a)
    ensures a == b
    decreases |a|
  {
    if a != [] {
      NotAfterAntisymmetric(a[1..], b[1..]);
      assert a == [a[0]] + a[1..] && b == [b[0]] + b[1..];
    }
  }

  /**
    Iterating the keys of a `HashMap`: every key once, in an order the map
    does not promise, which is left open here by picking any remaining key.
  */
  method HashMapKeys<K, V>(m: map<K, V>) returns (ks: seq<K>)
    ensures forall i, j :: 0 <= i < j < |ks| ==> ks[i] != ks[j]
    ensures forall k :: k in m <==> k in ks
  {
    ks := [];
    var rest := m.Keys;
    while rest != {}
      invariant rest <= m.Keys
      invariant forall k :: k in m <==> k in ks || k in rest
      invariant forall i :: 0 <= i < |ks| ==> ks[i] !in rest
      invariant forall i, j :: 0 <= i < j < |ks| ==> ks[i] != ks[j]
      decreases rest
    {
      var k :| k in rest;
      ks := ks + [k];
      rest := rest - {k};
    }
  }
}
