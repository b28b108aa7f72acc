/** The few Python string builtins the integration relies on: `str.split`
    with a one-character separator, `str.join`, `str.replace(c, "")`,
    `str.upper` and `str.capitalize`. Case mapping is modelled on ASCII
    letters only; every other character is left as it is. */
module Text {

  predicate IsLowerAscii(c: char) { 'a' <= c <= 'z' }

  predicate IsUpperAscii(c: char) { 'A' <= c <= 'Z' }

  /** True when no character of `s` is a lower-case ASCII letter. */
  predicate NoLowerAscii(s: string) {
    forall i :: 0 <= i < |s| ==> !IsLowerAscii(s[i])
  }

  function UpperChar(c: char): (r: char)
    ensures !IsLowerAscii(r)
    ensures IsLowerAscii(c) ==> IsUpperAscii(r) && LowerChar(r) == c
    ensures !IsLowerAscii(c) ==> r == c
  {
    if IsLowerAscii(c) then (c as int - 32) as char else c
  }

  function LowerChar(c: char): (r: char)
    ensures !IsUpperAscii(r)
    ensures !IsUpperAscii(c) ==> r == c
  {
    if IsUpperAscii(c) then (c as int + 32) as char else c
  }

  /** `s.upper()`: every character mapped on its own, length unchanged. */
  function ToUpper(s: string): (r: string)
    ensures |r| == |s|
    ensures forall i :: 0 <= i < |s| ==> r[i] == UpperChar(s[i])
    ensures NoLowerAscii(r)
  {
    seq(|s|, i requires 0 <= i < |s| => UpperChar(s[i]))
  }

  /** `s.lower()` */
  function ToLower(s: string): (r: string)
    ensures |r| == |s|
    ensures forall i :: 0 <= i < |s| ==> r[i] == LowerChar(s[i])
  {
    seq(|s|, i requires 0 <= i < |s| => LowerChar(s[i]))
  }

  /** `s.capitalize()`: the first character upper-cased, all others lower-cased. */
  function Capitalize(s: string): (r: string)
    ensures |r| == |s|
    ensures |s| > 0 ==> r[0] == UpperChar(s[0])
    ensures forall i :: 0 < i < |s| ==> r[i] == LowerChar(s[i])
  {
    if |s| == 0 then "" else [UpperChar(s[0])] + ToLower(s[1..])
  }

  /** Number of occurrences of `c` in `s`. */
  function Count(s: string, c: char): (n: nat)
    ensures n <= |s|
    ensures n > 0 <==> c in s
  {
    if |s| == 0 then 0
    else (if s[0] == c then 1 else 0) + Count(s[1..], c)
  }

  /** `s.replace(c, "")`: every occurrence of `c` deleted, and only those
      (the other characters keep their order: see RemoveIsConcatOfSplit). */
  function Remove(s: string, c: char): (r: string)
    ensures c !in r
    ensures |r| == |s| - Count(s, c)
  {
    if |s| == 0 then ""
    else (if s[0] == c then "" else [s[0]]) + Remove(s[1..], c)
  }

  /** `s.split(sep)` for a one-character separator: the maximal runs between
      separators, so that `n` separators give `n + 1` pieces (some possibly
      empty) none of which contains `sep`. */
  function Split(s: string, sep: char): (r: seq<string>)
    ensures |r| == Count(s, sep) + 1
    ensures forall i :: 0 <= i < |r| ==> sep !in r[i]
  {
    if |s| == 0 then [""]
    else
      var rest := Split(s[1..], sep);
      if s[0] == sep then [""] + rest
      else [[s[0]] + rest[0]] + rest[1..]
  }

  /** `sep.join(parts)` for a one-character separator. */
  function Join(parts: seq<string>, sep: char): string
  {
    if |parts| == 0 then ""
    else if |parts| == 1 then parts[0]
    else parts[0] + [sep] + Join(parts[1..], sep)
  }

  /** `"".join(parts)` */
  function Concat(parts: seq<string>): string
  {
    if |parts| == 0 then "" else parts[0] + Concat(parts[1..])
  }

  /** Joining the pieces of a split with the same separator gives back the string. */
  lemma {:induction false} SplitJoin(s: string, sep: char)
    ensures Join(Split(s, sep), sep) == s
    decreases |s|
  {
    if |s| > 0 {
      var rest := Split(s[1..], sep);
      SplitJoin(s[1..], sep);
      var r := Split(s, sep);
      if s[0] == sep {
        assert r[1..] == rest;
      } else if |rest| == 1 {
        assert r == [[s[0]] + rest[0]];
      } else {
        var x, tail := rest[0], Join(rest[1..], sep);
        assert r[0] == [s[0]] + x;
        assert r[1..] == rest[1..];
        assert Join(r, sep) == ([s[0]] + x) + [sep] + tail;
        assert Join(rest, sep) == x + [sep] + tail;
        assert ([s[0]] + x) + [sep] + tail == [s[0]] + (x + [sep] + tail);
        assert s == [s[0]] + s[1..];
      }
    }
  }

  /** A string without the separator splits into itself alone. */
  lemma {:induction false} SplitWithoutSep(s: string, sep: char)
    requires sep !in s
    ensures Split(s, sep) == [s]
    decreases |s|
  {
    if |s| > 0 {
      SplitWithoutSep(s[1..], sep);
      assert [s[0]] + s[1..] == s;
    }
  }

  /** Splitting at the first separator: the text before it is the first piece. */
  lemma {:induction false} SplitCons(a: string, sep: char, b: string)
    requires sep !in a
    ensures Split(a + [sep] + b, sep) == [a] + Split(b, sep)
    decreases |a|
  {
    var s := a + [sep] + b;
    if |a| == 0 {
      assert s[1..] == b;
    } else {
      assert s[1..] == a[1..] + [sep] + b;
      SplitCons(a[1..], sep, b);
      assert [a[0]] + a[1..] == a;
    }
  }

  /** Splitting a join of separator-free pieces gives back the pieces. */
  lemma {:induction false} JoinSplit(parts: seq<string>, sep: char)
    requires |parts| > 0
    requires forall i :: 0 <= i < |parts| ==> sep !in parts[i]
    ensures Split(Join(parts, sep), sep) == parts
    decreases |parts|
  {
    if |parts| == 1 {
      SplitWithoutSep(parts[0], sep);
    } else {
      JoinSplit(parts[1..], sep);
      SplitCons(parts[0], sep, Join(parts[1..], sep));
      assert [parts[0]] + parts[1..] == parts;
    }
  }

  /** The first two pieces of a split, as Python code reads them with
      `split(sep)[0]` and `split(sep)[1]`: `s` starts with the first piece,
      the separator and the second piece, and the character after that
      prefix, if there is one, is another separator. */
  lemma SplitFirstTwo(s: string, sep: char)
    requires sep in s
    ensures |Split(s, sep)| >= 2
    ensures var k := |Split(s, sep)[0]| + 1 + |Split(s, sep)[1]|;
      k <= |s| && s[..k] == Split(s, sep)[0] + [sep] + Split(s, sep)[1] && (k < |s| ==> s[k] == sep)
  {
    var r := Split(s, sep);
    SplitJoin(s, sep);
    var rest := if |r| == 2 then "" else [sep] + Join(r[2..], sep);
    if |r| > 2 {
      assert r[1..][1..] == r[2..];
    }
    assert s == r[0] + [sep] + r[1] + rest;
  }

  /** Conversely, a string made of a separator-free piece, the separator, a
      second separator-free piece and a rest that is empty or starts with
      the separator splits into those two pieces first. */
  lemma SplitFirstTwoOf(s: string, a: string, b: string, rest: string, sep: char)
    requires s == a + [sep] + b + rest
    requires sep !in a && sep !in b
    requires rest == [] || rest[0] == sep
    ensures |Split(s, sep)| >= 2 && Split(s, sep)[0] == a && Split(s, sep)[1] == b
  {
    assert s == a + [sep] + (b + rest);
    SplitCons(a, sep, b + rest);
    if rest == [] {
      assert b + rest == b;
      SplitWithoutSep(b, sep);
    } else {
      assert b + rest == b + [sep] + rest[1..];
      SplitCons(b, sep, rest[1..]);
    }
  }

  /** Removing a character that does not occur changes nothing. */
  lemma {:induction false} RemoveAbsent(s: string, c: char)
    requires c !in s
    ensures Remove(s, c) == s
    decreases |s|
  {
    if |s| > 0 {
      RemoveAbsent(s[1..], c);
      assert [s[0]] + s[1..] == s;
    }
  }

  /** Deleting a character keeps the other characters in order: it glues
      together the pieces that splitting at that character produces. */
  lemma {:induction false} RemoveIsConcatOfSplit(s: string, c: char)
    ensures Remove(s, c) == Concat(Split(s, c))
    decreases |s|
  {
    if |s| > 0 {
      RemoveIsConcatOfSplit(s[1..], c);
      var rest := Split(s[1..], c);
      var r := Split(s, c);
      if s[0] == c {
        assert r[1..] == rest;
      } else {
        assert r[0] == [s[0]] + rest[0];
        assert r[1..] == rest[1..];
      }
    }
  }

  /** Deleting a character from a concatenation deletes it from each part. */
  lemma {:induction false} RemoveAppend(a: string, b: string, c: char)
    ensures Remove(a + b, c) == Remove(a, c) + Remove(b, c)
    decreases |a|
  {
    if |a| == 0 {
      assert a + b == b;
    } else {
      var ab := a + b;
      assert ab[0] == a[0] && ab[1..] == a[1..] + b;
      RemoveAppend(a[1..], b, c);
      var head := if a[0] == c then "" else [a[0]];
      var x, y := Remove(a[1..], c), Remove(b, c);
      assert Remove(ab, c) == head + (x + y);
      assert head + (x + y) == (head + x) + y;
    }
  }

  /** Upper-casing a string that is already upper-case changes nothing. */
  lemma ToUpperFixpoint(s: string)
    ensures ToUpper(s) == s <==> NoLowerAscii(s)
  {
    if NoLowerAscii(s) {
      assert forall i :: 0 <= i < |s| ==> ToUpper(s)[i] == s[i];
    }
  }
}
