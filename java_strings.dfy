/**
 * The java.lang.String operations the feed updater relies on: trim(),
 * toLowerCase() + startsWith(), split(";") and StringBuilder appends.
 * Strings are sequences of Unicode scalar values; every character these
 * operations inspect (white space up to U+0020, ';', ASCII letters) is one.
 */
module JavaStrings {

  /** String.trim() removes every character whose code is at most U+0020. */
  predicate IsTrimmable(c: char) {
    c <= ' '
  }

  /** The number of trimmable characters at the front of `s`. */
  function LeadingTrimmable(s: string): (n: nat)
    ensures n <= |s|
    ensures forall i :: 0 <= i < n ==> IsTrimmable(s[i])
    ensures n < |s| ==> !IsTrimmable(s[n])
  {
    if s == [] || !IsTrimmable(s[0]) then 0 else 1 + LeadingTrimmable(s[1..])
  }

  /** The number of trimmable characters at the back of `s`. */
  function TrailingTrimmable(s: string): (n: nat)
    ensures n <= |s|
    ensures forall i :: |s| - n <= i < |s| ==> IsTrimmable(s[i])
    ensures n < |s| ==> !IsTrimmable(s[|s| - 1 - n])
  {
    if s == [] || !IsTrimmable(s[|s| - 1]) then 0 else 1 + TrailingTrimmable(s[..|s| - 1])
  }

  /** `r` sits at offset `i` of `s` and everything around it is trimmable. */
  ghost predicate Pads(s: string, i: int, r: string) {
    0 <= i && i + |r| <= |s| && s[i..i + |r|] == r
    && (forall k :: 0 <= k < i ==> IsTrimmable(s[k]))
    && (forall k :: i + |r| <= k < |s| ==> IsTrimmable(s[k]))
  }

  /** Neither end of `r` is trimmable. */
  predicate Trimmed(r: string) {
    r == [] || (!IsTrimmable(r[0]) && !IsTrimmable(r[|r| - 1]))
  }

  /** String.trim(): `s` without its leading and trailing trimmable characters. */
  function Trim(s: string): string {
    var t := s[LeadingTrimmable(s)..];
    t[..|t| - TrailingTrimmable(t)]
  }

  /** trim() leaves an untrimmable core, and everything it removed was trimmable. */
  lemma TrimSpec(s: string)
    ensures Trimmed(Trim(s))
    ensures Pads(s, LeadingTrimmable(s), Trim(s))
  {
    var t := s[LeadingTrimmable(s)..];
    var r := Trim(s);
    assert r == [] || r[0] == t[0];
  }

  /** Trim(s) is the only untrimmable core that `s` pads: trim() is fully determined by its two properties. */
  lemma {:induction false} TrimUnique(s: string, i: int, r: string)
    requires Pads(s, i, r) && Trimmed(r)
    ensures r == Trim(s)
  {
    var n := LeadingTrimmable(s);
    var t := Trim(s);
    TrimSpec(s);
    if r == [] {
      assert forall k :: 0 <= k < |s| ==> IsTrimmable(s[k]) by {
        forall k | 0 <= k < |s| ensures IsTrimmable(s[k]) {
          if k >= i { assert i + |r| <= k; }
        }
      }
      assert n == |s|;
    } else {
      assert s[i] == r[0];
      assert n == i;
      assert s[i + |r| - 1] == r[|r| - 1];
      assert |r| <= |t|;
      assert s[n + |t| - 1] == t[|t| - 1];
      assert |t| <= |r|;
      assert |t| == |r|;
    }
  }

  /** Trimming twice is trimming once. */
  lemma TrimIdempotent(s: string)
    ensures Trim(Trim(s)) == Trim(s)
  {
    var r := Trim(s);
    TrimSpec(s);
    assert Pads(r, 0, r);
    TrimUnique(r, 0, r);
  }

  /** A string trims to "" exactly when it consists of trimmable characters only. */
  lemma TrimEmpty(s: string)
    ensures Trim(s) == [] <==> forall k :: 0 <= k < |s| ==> IsTrimmable(s[k])
  {
    TrimSpec(s);
    if forall k :: 0 <= k < |s| ==> IsTrimmable(s[k]) {
      assert Pads(s, 0, []);
      TrimUnique(s, 0, []);
    }
  }

  /** Character.toLowerCase restricted to ASCII: upper-case letters map to lower case, all else is kept. */
  function LowerChar(c: char): char {
    if 'A' <= c <= 'Z' then (c as int - 'A' as int + 'a' as int) as char else c
  }

  /** String.toLowerCase() on ASCII letters. */
  function ToLower(s: string): (r: string)
    ensures |r| == |s|
    ensures forall i :: 0 <= i < |s| ==> !('A' <= r[i] <= 'Z')
    ensures forall i :: 0 <= i < |s| && !('A' <= s[i] <= 'Z') ==> r[i] == s[i]
    ensures forall i :: 0 <= i < |s| && 'A' <= s[i] <= 'Z' ==> r[i] as int == s[i] as int - 'A' as int + 'a' as int
  {
    seq(|s|, i requires 0 <= i < |s| => LowerChar(s[i]))
  }

  /** String.startsWith. */
  predicate StartsWith(s: string, prefix: string) {
    |prefix| <= |s| && s[..|prefix|] == prefix
  }

  /** Every field between occurrences of `sep`, empty fields included. */
  function SplitOn(s: string, sep: char): (parts: seq<string>)
    ensures |parts| >= 1
    ensures forall i :: 0 <= i < |parts| ==> sep !in parts[i]
    ensures sep !in s ==> parts == [s]
    decreases |s|
  {
    if s == [] then [[]]
    else if s[0] == sep then [[]] + SplitOn(s[1..], sep)
    else
      var rest := SplitOn(s[1..], sep);
      assert [s[0]] + s[1..] == s;
      [[s[0]] + rest[0]] + rest[1..]
  }

  /** The fields put back together with `sep` between them. */
  function JoinWith(parts: seq<string>, sep: char): string
    requires |parts| >= 1
    decreases |parts|
  {
    if |parts| == 1 then parts[0] else parts[0] + [sep] + JoinWith(parts[1..], sep)
  }

  /** Splitting loses nothing: joining the fields gives back the string. */
  lemma {:induction false} JoinSplit(s: string, sep: char)
    ensures JoinWith(SplitOn(s, sep), sep) == s
    decreases |s|
  {
    if s != [] {
      JoinSplit(s[1..], sep);
      var rest := SplitOn(s[1..], sep);
      if s[0] == sep {
        assert SplitOn(s, sep)[1..] == rest;
      } else if |rest| == 1 {
        assert [s[0]] + s[1..] == s;
      } else {
        assert SplitOn(s, sep)[1..] == rest[1..];
        assert JoinWith(rest, sep) == rest[0] + [sep] + JoinWith(rest[1..], sep);
        assert [s[0]] + s[1..] == s;
      }
    }
  }

  /** Joining fields that contain no separator and splitting again gives back the fields. */
  lemma {:induction false} SplitJoin(parts: seq<string>, sep: char)
    requires |parts| >= 1
    requires forall i :: 0 <= i < |parts| ==> sep !in parts[i]
    ensures SplitOn(JoinWith(parts, sep), sep) == parts
    decreases |parts|
  {
    if |parts| > 1 {
      SplitJoin(parts[1..], sep);
      SplitPrefix(parts[0], JoinWith(parts[1..], sep), sep);
      assert [parts[0]] + parts[1..] == parts;
    }
  }

  /** A separator-free prefix followed by a separator becomes the first field. */
  lemma {:induction false} SplitPrefix(a: string, b: string, sep: char)
    requires sep !in a
    ensures SplitOn(a + [sep] + b, sep) == [a] + SplitOn(b, sep)
    decreases |a|
  {
    if a == [] {
      assert (a + [sep] + b)[1..] == b;
    } else {
      var s := a + [sep] + b;
      var tail := a[1..] + [sep] + b;
      assert s[0] == a[0] && s[0] != sep;
      assert s[1..] == tail;
      SplitPrefix(a[1..], b, sep);
      var rest := SplitOn(tail, sep);
      assert rest == [a[1..]] + SplitOn(b, sep);
      assert SplitOn(s, sep) == [[a[0]] + rest[0]] + rest[1..];
      assert [a[0]] + a[1..] == a;
    }
  }

  /** The fields with every trailing empty field removed. */
  function DropTrailingEmpty(parts: seq<string>): (r: seq<string>)
    ensures r <= parts
    ensures r == [] || r[|r| - 1] != []
    ensures forall k :: |r| <= k < |parts| ==> parts[k] == []
    decreases |parts|
  {
    if parts == [] || parts[|parts| - 1] != [] then parts
    else DropTrailingEmpty(parts[..|parts| - 1])
  }

  /** String.split with a one-character separator: a string without the separator is its own only
      field; otherwise the fields, with trailing empty fields removed. */
  function Split(s: string, sep: char): seq<string> {
    if sep !in s then [s] else DropTrailingEmpty(SplitOn(s, sep))
  }

  /** Joining two non-empty field lists puts one separator between their joins. */
  lemma {:induction false} JoinAppend(a: seq<string>, b: seq<string>, sep: char)
    requires |a| >= 1 && |b| >= 1
    ensures JoinWith(a + b, sep) == JoinWith(a, sep) + [sep] + JoinWith(b, sep)
    decreases |a|
  {
    assert (a + b)[0] == a[0];
    if |a| > 1 {
      JoinAppend(a[1..], b, sep);
      assert (a + b)[1..] == a[1..] + b;
    } else {
      assert (a + b)[1..] == b;
    }
  }

  /** `n` copies of `c`. */
  function Repeat(c: char, n: nat): string {
    seq(n, _ => c)
  }

  /** `k` empty fields. */
  function Empties(k: nat): seq<string> {
    seq(k, _ => [])
  }

  /** Joining k + 1 empty fields gives k separators. */
  lemma {:induction false} JoinEmpties(k: nat, sep: char)
    ensures JoinWith(Empties(k + 1), sep) == Repeat(sep, k)
    decreases k
  {
    if k > 0 {
      JoinEmpties(k - 1, sep);
      assert Empties(k + 1)[1..] == Empties(k);
      assert [] + [sep] + Repeat(sep, k - 1) == Repeat(sep, k);
    }
  }

  /** The fields DropTrailingEmpty keeps, followed by as many empty fields as it dropped, are all the fields. */
  lemma DropTrailingEmptyThenEmpties(parts: seq<string>)
    ensures parts == DropTrailingEmpty(parts) + Empties(|parts| - |DropTrailingEmpty(parts)|)
  {
    var kept := DropTrailingEmpty(parts);
    assert parts[|kept|..] == Empties(|parts| - |kept|);
    assert parts == kept + parts[|kept|..];
  }

  /** Dropping k trailing empty fields removes exactly k separators from the end of the join. */
  lemma JoinDropTrailingEmpty(parts: seq<string>, sep: char) returns (n: nat)
    requires |parts| >= 1
    ensures DropTrailingEmpty(parts) != [] ==>
      JoinWith(parts, sep) == JoinWith(DropTrailingEmpty(parts), sep) + Repeat(sep, n)
    ensures DropTrailingEmpty(parts) == [] ==> JoinWith(parts, sep) == Repeat(sep, |parts| - 1)
  {
    var kept := DropTrailingEmpty(parts);
    DropTrailingEmptyThenEmpties(parts);
    n := |parts| - |kept|;
    if kept == [] {
      assert parts == Empties(n);
      JoinEmpties(n - 1, sep);
    } else if n == 0 {
      assert parts == kept;
      assert JoinWith(kept, sep) + Repeat(sep, 0) == JoinWith(kept, sep);
    } else {
      JoinAppend(kept, Empties(n), sep);
      JoinEmpties(n - 1, sep);
      assert [sep] + Repeat(sep, n - 1) == Repeat(sep, n);
    }
  }

  /** Java's fields contain no separator. */
  lemma SplitFieldsFree(s: string, sep: char)
    ensures forall i :: 0 <= i < |Split(s, sep)| ==> sep !in Split(s, sep)[i]
  {
    if sep in s {
      var all := SplitOn(s, sep);
      var kept := Split(s, sep);
      assert kept <= all by {
        assert kept == DropTrailingEmpty(all);
      }
      forall i | 0 <= i < |kept| ensures sep !in kept[i] {
        assert kept[i] == all[i];
      }
    }
  }

  /** No field at all: the string is nothing but separators. */
  lemma SplitNoFields(s: string, sep: char)
    requires Split(s, sep) == []
    ensures forall k :: 0 <= k < |s| ==> s[k] == sep
  {
    var all := SplitOn(s, sep);
    assert Split(s, sep) == DropTrailingEmpty(all);
    JoinSplit(s, sep);
    var n := JoinDropTrailingEmpty(all, sep);
  }

  /** Some fields: the last is non-empty and their join is the string without its trailing separators. */
  lemma SplitSomeFields(s: string, sep: char) returns (n: nat)
    requires sep in s && Split(s, sep) != []
    ensures Split(s, sep)[|Split(s, sep)| - 1] != []
    ensures s == JoinWith(Split(s, sep), sep) + Repeat(sep, n)
  {
    var all := SplitOn(s, sep);
    assert Split(s, sep) == DropTrailingEmpty(all);
    JoinSplit(s, sep);
    n := JoinDropTrailingEmpty(all, sep);
  }

  /**
   * What String.split(";") returns: fields free of the separator; when the
   * string holds a separator, either no field at all (the string is nothing
   * but separators) or fields ending in a non-empty one whose join is the
   * string with its trailing separators removed.
   */
  lemma SplitFields(s: string, sep: char)
    ensures var parts := Split(s, sep);
      && (forall i :: 0 <= i < |parts| ==> sep !in parts[i])
      && (sep !in s ==> parts == [s])
      && (sep in s && parts != [] ==>
            parts[|parts| - 1] != [] && exists n: nat :: s == JoinWith(parts, sep) + Repeat(sep, n))
      && (parts == [] ==> forall k :: 0 <= k < |s| ==> s[k] == sep)
  {
    SplitFieldsFree(s, sep);
    if Split(s, sep) == [] {
      SplitNoFields(s, sep);
    } else if sep in s {
      var n := SplitSomeFields(s, sep);
    }
  }

  /** StringBuilder.append of each line in turn: the lines joined with no separator. */
  function Concat(lines: seq<string>): string
    decreases |lines|
  {
    if lines == [] then [] else Concat(lines[..|lines| - 1]) + lines[|lines| - 1]
  }

  /** Concatenation distributes over the line sequence: nothing is inserted between lines. */
  lemma {:induction false} ConcatAppend(a: seq<string>, b: seq<string>)
    ensures Concat(a + b) == Concat(a) + Concat(b)
    decreases |b|
  {
    if b == [] {
      assert a + b == a;
    } else {
      var init, last := b[..|b| - 1], b[|b| - 1];
      assert (a + b)[..|a + b| - 1] == a + init;
      assert (a + b)[|a + b| - 1] == last;
      assert Concat(a + b) == Concat(a + init) + last;
      assert Concat(b) == Concat(init) + last;
      ConcatAppend(a, init);
    }
  }

  /** The concatenation is exactly as long as all the lines together. */
  function TotalLength(lines: seq<string>): nat
    decreases |lines|
  {
    if lines == [] then 0 else |lines[0]| + TotalLength(lines[1..])
  }

  lemma {:induction false} ConcatLength(lines: seq<string>)
    ensures |Concat(lines)| == TotalLength(lines)
    decreases |lines|
  {
    if lines != [] {
      ConcatAppend([lines[0]], lines[1..]);
      assert [lines[0]] + lines[1..] == lines;
      ConcatLength(lines[1..]);
      assert Concat([lines[0]]) == Concat([]) + lines[0];
    }
  }
}
