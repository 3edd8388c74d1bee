/**
  String helpers with JavaScript meaning: `String.prototype.split` on a
  single separator or a character class, `Array.prototype.join`, and the
  ASCII case mapping that `replace(/^\w/, c => c.toUpperCase())` performs.
 */
module Text {

  /** The number of characters of `s` that belong to `cs`. */
  function CountIn(s: string, cs: set<char>): (n: nat)
    ensures n <= |s|
  {
    if |s| == 0 then 0 else (if s[0] in cs then 1 else 0) + CountIn(s[1..], cs)
  }

  /** True when no character of `s` belongs to `cs`. */
  predicate Avoids(s: string, cs: set<char>) {
    forall i :: 0 <= i < |s| ==> s[i] !in cs
  }

  /**
    `s.split(sep)` where `sep` is one character or a regular-expression
    character class: the maximal pieces between separators, empty pieces
    included, so there is always at least one piece.
   */
  function Split(s: string, seps: set<char>): (r: seq<string>)
    ensures |r| == CountIn(s, seps) + 1
    ensures forall i :: 0 <= i < |r| ==> Avoids(r[i], seps)
    decreases |s|
  {
    if |s| == 0 then [""]
    else
      var rest := Split(s[1..], seps);
      if s[0] in seps then [""] + rest
      else [[s[0]] + rest[0]] + rest[1..]
  }

  /** `parts.join(sep)`. */
  function Join(parts: seq<string>, sep: string): string
    decreases |parts|
  {
    if |parts| == 0 then ""
    else if |parts| == 1 then parts[0]
    else parts[0] + sep + Join(parts[1..], sep)
  }

  /** `parts.join('')`. */
  function Concat(parts: seq<string>): string
    decreases |parts|
  {
    if |parts| == 0 then "" else parts[0] + Concat(parts[1..])
  }

  /** The total length of a list of strings. */
  function TotalLength(parts: seq<string>): nat
    decreases |parts|
  {
    if |parts| == 0 then 0 else |parts[0]| + TotalLength(parts[1..])
  }

  lemma {:induction false} JoinPrependToHead(a: string, parts: seq<string>, sep: string)
    requires |parts| >= 1
    ensures Join([a + parts[0]] + parts[1..], sep) == a + Join(parts, sep)
  {
    var xs := [a + parts[0]] + parts[1..];
    assert xs[1..] == parts[1..];
    if |parts| == 1 {
    } else {
      assert Join(xs, sep) == (a + parts[0]) + sep + Join(parts[1..], sep);
    }
  }

  /** Splitting on one separator and joining back with it restores the string. */
  lemma {:induction false} JoinSplit(s: string, c: char)
    ensures Join(Split(s, {c}), [c]) == s
    decreases |s|
  {
    if |s| == 0 {
    } else {
      var rest := Split(s[1..], {c});
      JoinSplit(s[1..], c);
      if s[0] == c {
        var xs := [""] + rest;
        assert xs[1..] == rest;
        assert Join(xs, [c]) == "" + [c] + Join(rest, [c]);
        assert s == [s[0]] + s[1..];
      } else {
        JoinPrependToHead([s[0]], rest, [c]);
        assert s == [s[0]] + s[1..];
      }
    }
  }

  lemma {:induction false} SplitWithoutSeparator(x: string, seps: set<char>)
    requires Avoids(x, seps)
    ensures Split(x, seps) == [x]
    decreases |x|
  {
    if |x| > 0 {
      SplitWithoutSeparator(x[1..], seps);
      assert [x[0]] + x[1..] == x;
    }
  }

  lemma {:induction false} SplitAtFirstSeparator(x: string, c: char, y: string, seps: set<char>)
    requires Avoids(x, seps) && c in seps
    ensures Split(x + [c] + y, seps) == [x] + Split(y, seps)
    decreases |x|
  {
    var s := x + [c] + y;
    if |x| == 0 {
      assert s[0] == c && s[1..] == y;
    } else {
      assert s[0] == x[0] && s[1..] == x[1..] + [c] + y;
      SplitAtFirstSeparator(x[1..], c, y, seps);
      assert [x[0]] + x[1..] == x;
    }
  }

  /** Joining pieces that avoid the separator and splitting again gives the pieces back. */
  lemma {:induction false} SplitJoin(parts: seq<string>, c: char)
    requires |parts| >= 1
    requires forall i :: 0 <= i < |parts| ==> Avoids(parts[i], {c})
    ensures Split(Join(parts, [c]), {c}) == parts
    decreases |parts|
  {
    if |parts| == 1 {
      SplitWithoutSeparator(parts[0], {c});
    } else {
      SplitJoin(parts[1..], c);
      SplitAtFirstSeparator(parts[0], c, Join(parts[1..], [c]), {c});
      assert parts[0] + [c] + Join(parts[1..], [c]) == Join(parts, [c]);
      assert [parts[0]] + parts[1..] == parts;
    }
  }

  lemma {:induction false} TotalLengthPrependToHead(a: string, parts: seq<string>)
    requires |parts| >= 1
    ensures TotalLength([a + parts[0]] + parts[1..]) == |a| + TotalLength(parts)
  {
    var xs := [a + parts[0]] + parts[1..];
    assert xs[1..] == parts[1..];
  }

  /** The pieces of a split hold every character except the separators. */
  lemma {:induction false} SplitLength(s: string, seps: set<char>)
    ensures TotalLength(Split(s, seps)) + CountIn(s, seps) == |s|
    decreases |s|
  {
    if |s| > 0 {
      SplitLength(s[1..], seps);
      var rest := Split(s[1..], seps);
      if s[0] in seps {
        assert ([""] + rest)[1..] == rest;
      } else {
        TotalLengthPrependToHead([s[0]], rest);
      }
    }
  }

  lemma {:induction false} ConcatLength(parts: seq<string>)
    ensures |Concat(parts)| == TotalLength(parts)
    decreases |parts|
  {
    if |parts| > 0 {
      ConcatLength(parts[1..]);
    }
  }

  lemma {:induction false} ConcatAvoids(parts: seq<string>, cs: set<char>)
    requires forall i :: 0 <= i < |parts| ==> Avoids(parts[i], cs)
    ensures Avoids(Concat(parts), cs)
    decreases |parts|
  {
    if |parts| > 0 {
      ConcatAvoids(parts[1..], cs);
      var c := Concat(parts);
      assert c == parts[0] + Concat(parts[1..]);
      forall i | 0 <= i < |c|
        ensures c[i] !in cs
      {
        if i >= |parts[0]| {
          assert c[i] == Concat(parts[1..])[i - |parts[0]|];
        }
      }
    }
  }

  lemma {:induction false} JoinAvoids(parts: seq<string>, sep: string, cs: set<char>)
    requires Avoids(sep, cs)
    requires forall i :: 0 <= i < |parts| ==> Avoids(parts[i], cs)
    ensures Avoids(Join(parts, sep), cs)
    decreases |parts|
  {
    if |parts| > 1 {
      JoinAvoids(parts[1..], sep, cs);
      var j := Join(parts, sep);
      var tail := Join(parts[1..], sep);
      assert j == parts[0] + sep + tail;
      forall i | 0 <= i < |j|
        ensures j[i] !in cs
      {
        if i < |parts[0]| {
          assert j[i] == parts[0][i];
        } else if i < |parts[0]| + |sep| {
          assert j[i] == sep[i - |parts[0]|];
        } else {
          assert j[i] == tail[i - |parts[0]| - |sep|];
        }
      }
    }
  }

  /** `\w` in a regular expression without the `u` flag. */
  predicate IsWordChar(c: char) {
    ('a' <= c <= 'z') || ('A' <= c <= 'Z') || ('0' <= c <= '9') || c == '_'
  }

  predicate IsLowerAscii(c: char) {
    'a' <= c <= 'z'
  }

  /** `toUpperCase` on a `\w` character: only the lower-case letters change. */
  function UpperWordChar(c: char): (u: char)
    ensures IsLowerAscii(c) ==> 'A' <= u <= 'Z' && u as int == c as int - 32
    ensures !IsLowerAscii(c) ==> u == c
  {
    if IsLowerAscii(c) then (c as int - 32) as char else c
  }

  /** `w.replace(/^\w/, c => c.toUpperCase())`. */
  function CapitalizeFirst(w: string): (r: string)
    ensures |r| == |w|
    ensures |w| > 0 ==> r[1..] == w[1..]
    ensures |w| > 0 ==> (IsLowerAscii(w[0]) <==> r[0] != w[0])
    ensures |w| > 0 ==> !IsLowerAscii(r[0])
    ensures |w| > 0 ==> r[0] == w[0] || 'A' <= r[0] <= 'Z'
  {
    if |w| > 0 && IsWordChar(w[0]) then [UpperWordChar(w[0])] + w[1..] else w
  }

  /** Capitalising twice is capitalising once. */
  lemma CapitalizeFirstIdempotent(w: string)
    ensures CapitalizeFirst(CapitalizeFirst(w)) == CapitalizeFirst(w)
  {
  }
}
