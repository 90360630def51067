/**
  Character classes and string operations the logger relies on: JavaScript's `String.prototype.split`
  on "\n", `toUpperCase` and the character classes of the line regular expression.
 */
module Text {
  import opened Wrappers

  /** The reader's completeness gate: the text is non-empty and its last character is a newline. */
  predicate EndsInNewline(s: string) {
    |s| > 0 && s[|s| - 1] == '\n'
  }

  /** The regular-expression class `\w` (no `u` flag): ASCII letters, digits and underscore. */
  predicate IsWordChar(c: char) {
    'A' <= c <= 'Z' || 'a' <= c <= 'z' || '0' <= c <= '9' || c == '_'
  }

  /** The line terminators of ECMAScript regular expressions. */
  predicate IsLineTerminator(c: char) {
    c == '\n' || c == '\r' || c == '\U{2028}' || c == '\U{2029}'
  }

  /** The characters the regular-expression `.` matches. */
  predicate IsMessageChar(c: char) {
    !IsLineTerminator(c)
  }

  predicate IsLower(c: char) {
    'a' <= c <= 'z'
  }

  function UpperChar(c: char): char {
    if IsLower(c) then (c as int - 32) as char else c
  }

  /** `toUpperCase`, restricted to ASCII letters. */
  function ToUpper(s: string): (r: string)
    ensures |r| == |s|
    ensures forall i :: 0 <= i < |r| ==> !IsLower(r[i])
    ensures forall i :: 0 <= i < |s| && !IsLower(s[i]) ==> r[i] == s[i]
    ensures forall i :: 0 <= i < |s| && IsLower(s[i]) ==> r[i] as int + 32 == s[i] as int
  {
    seq(|s|, i requires 0 <= i < |s| => UpperChar(s[i]))
  }

  /** Upper-casing twice is upper-casing once. */
  lemma ToUpperIdempotent(s: string)
    ensures ToUpper(ToUpper(s)) == ToUpper(s)
  {
  }

  /** The index of the first occurrence of `c` in `s`, or None when `c` does not occur. */
  function IndexOf(s: string, c: char): (r: Option<nat>)
    ensures r.Some? ==> r.value < |s| && s[r.value] == c && c !in s[..r.value]
    ensures r.None? ==> c !in s
  {
    if |s| == 0 then None
    else if s[0] == c then Some(0)
    else
      match IndexOf(s[1..], c)
      case None => None
      case Some(k) =>
        assert s[..k + 1] == [s[0]] + s[1..][..k];
        Some(k + 1)
  }

  /** The length of the longest prefix of `s` whose characters all satisfy `p` (a greedy `p*`). */
  function PrefixWhile(s: string, p: char -> bool): (n: nat)
    ensures n <= |s|
    ensures forall i :: 0 <= i < n ==> p(s[i])
    ensures n < |s| ==> !p(s[n])
  {
    if |s| == 0 || !p(s[0]) then 0 else 1 + PrefixWhile(s[1..], p)
  }

  /** `s.split('\n')`: the pieces between newlines, with an empty piece after a final newline. */
  function Split(s: string): (pieces: seq<string>)
    ensures |pieces| >= 1
  {
    if s == [] then [""]
    else
      var rest := Split(s[1..]);
      if s[0] == '\n' then [""] + rest
      else [[s[0]] + rest[0]] + rest[1..]
  }

  /** `pieces.join('\n')`. */
  function Join(pieces: seq<string>): string
    requires |pieces| >= 1
  {
    if |pieces| == 1 then pieces[0] else pieces[0] + "\n" + Join(pieces[1..])
  }

  /** The concatenation of a sequence of strings, in order. */
  function Concat(parts: seq<string>): string {
    if parts == [] then "" else parts[0] + Concat(parts[1..])
  }

  lemma AppendAssoc<T>(a: seq<T>, b: seq<T>, c: seq<T>)
    ensures (a + b) + c == a + (b + c)
  {
  }

  /** No piece of a split contains a newline. */
  lemma {:induction false} SplitPiecesNewlineFree(s: string)
    ensures forall i :: 0 <= i < |Split(s)| ==> '\n' !in Split(s)[i]
  {
    if s != [] {
      SplitPiecesNewlineFree(s[1..]);
      var rest := Split(s[1..]);
      if s[0] != '\n' {
        assert '\n' !in [s[0]] + rest[0];
      }
    }
  }

  /** Joining the pieces of a split gives back the text. */
  lemma {:induction false} SplitJoin(s: string)
    ensures Join(Split(s)) == s
  {
    if s != [] {
      var rest := Split(s[1..]);
      SplitJoin(s[1..]);
      if s[0] == '\n' {
        assert Split(s) == [""] + rest;
        assert Split(s)[1..] == rest;
      } else {
        assert Split(s) == [[s[0]] + rest[0]] + rest[1..];
        assert Split(s)[1..] == rest[1..];
        if |rest| == 1 {
          assert Join(Split(s)) == [s[0]] + rest[0];
        } else {
          assert Join(rest) == rest[0] + "\n" + Join(rest[1..]);
          assert Join(Split(s)) == [s[0]] + rest[0] + "\n" + Join(rest[1..]);
        }
      }
    }
  }

  /** Text without a newline splits into itself alone. */
  lemma {:induction false} SplitNoNewline(s: string)
    requires '\n' !in s
    ensures Split(s) == [s]
  {
    if s != [] {
      SplitNoNewline(s[1..]);
      assert [s[0]] + s[1..] == s;
    }
  }

  /** A newline-free piece followed by a newline splits off as the first piece. */
  lemma {:induction false} SplitCons(a: string, t: string)
    requires '\n' !in a
    ensures Split(a + "\n" + t) == [a] + Split(t)
  {
    if a == [] {
      assert a + "\n" + t == "\n" + t;
      assert ("\n" + t)[1..] == t;
    } else {
      var s := a + "\n" + t;
      assert s[0] == a[0];
      assert s[1..] == a[1..] + "\n" + t;
      SplitCons(a[1..], t);
      assert [a[0]] + a[1..] == a;
    }
  }

  /** The split is the only way to cut the text into newline-free pieces that join back to it. */
  lemma {:induction false} SplitUnique(s: string, pieces: seq<string>)
    requires |pieces| >= 1
    requires forall i :: 0 <= i < |pieces| ==> '\n' !in pieces[i]
    requires Join(pieces) == s
    ensures Split(s) == pieces
    decreases |pieces|
  {
    if |pieces| == 1 {
      SplitNoNewline(s);
    } else {
      SplitUnique(Join(pieces[1..]), pieces[1..]);
      SplitCons(pieces[0], Join(pieces[1..]));
    }
  }

  /**
    Splitting text that ends in a newline and then more text: the pieces of the first part, minus its
    trailing empty piece, followed by the pieces of the second.
   */
  lemma {:induction false} SplitAppend(x: string, y: string)
    requires EndsInNewline(x)
    ensures |Split(x)| >= 2 && Split(x)[|Split(x)| - 1] == ""
    ensures Split(x + y) == Split(x)[..|Split(x)| - 1] + Split(y)
    decreases |x|
  {
    var k := IndexOf(x, '\n').value;
    var a, rest := x[..k], x[k + 1..];
    var ry := rest + y;
    assert x == a + "\n" + rest;
    assert x + y == a + "\n" + ry;
    SplitCons(a, rest);
    SplitCons(a, ry);
    var px := Split(x);
    if rest == [] {
      assert ry == y;
      assert px == [a, ""];
    } else {
      assert EndsInNewline(rest) by { assert rest[|rest| - 1] == x[|x| - 1]; }
      SplitAppend(rest, y);
      var pr := Split(rest);
      assert px[..|px| - 1] == [a] + pr[..|pr| - 1];
      AppendAssoc([a], pr[..|pr| - 1], Split(y));
    }
  }
}
