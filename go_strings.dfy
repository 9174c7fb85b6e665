/** The parts of Go's `strings` package and of Go's built-in string
    ordering that the exporter relies on.  Strings are sequences of
    characters; Go compares strings byte by byte on their UTF-8 encoding,
    and UTF-8 preserves code-point order, so comparing characters here gives
    the same order. */
module GoStrings {

  /** strings.Index with a one-character separator: the position of the
      first occurrence of `c` in `s`, or -1 when there is none. */
  function Index(s: string, c: char): (i: int)
    ensures -1 <= i < |s|
    ensures i >= 0 ==> s[i] == c && c !in s[..i]
    ensures i == -1 <==> c !in s
  {
    if |s| == 0 then -1
    else if s[0] == c then 0
    else
      var j := Index(s[1..], c);
      if j < 0 then -1 else j + 1
  }

  /** strings.SplitN(s, sep, n) for a one-character separator and n >= 0:
      split at the first n - 1 separators, the last piece keeps the rest
      of the string; n == 0 gives no pieces at all (Go's nil slice). */
  function SplitN(s: string, sep: char, n: nat): (r: seq<string>)
    ensures n == 0 <==> r == []
    ensures n > 0 ==> 1 <= |r| <= n
    ensures forall i :: 0 <= i < |r| - 1 ==> sep !in r[i]
    ensures |r| < n ==> sep !in r[|r| - 1]
    decreases n
  {
    if n == 0 then []
    else if n == 1 then [s]
    else
      var m := Index(s, sep);
      if m < 0 then [s] else [s[..m]] + SplitN(s[m + 1..], sep, n - 1)
  }

  /** strings.Join(parts, sep) for a one-character separator. */
  function Join(parts: seq<string>, sep: char): string {
    if |parts| == 0 then ""
    else if |parts| == 1 then parts[0]
    else parts[0] + ([sep] + Join(parts[1..], sep))
  }

  /** Joining the pieces of a split gives back the split string. */
  lemma {:induction false} JoinSplitN(s: string, sep: char, n: nat)
    requires n >= 1
    ensures Join(SplitN(s, sep, n), sep) == s
    decreases n
  {
    if n > 1 && Index(s, sep) >= 0 {
      var m := Index(s, sep);
      JoinSplitN(s[m + 1..], sep, n - 1);
      JoinSplitNStep(s, sep, n, m);
    }
  }

  /** The inductive step of JoinSplitN: the split at the first separator. */
  lemma JoinSplitNStep(s: string, sep: char, n: nat, m: int)
    requires n > 1 && m == Index(s, sep) && m >= 0
    requires Join(SplitN(s[m + 1..], sep, n - 1), sep) == s[m + 1..]
    ensures Join(SplitN(s, sep, n), sep) == s
  {
    SplitNUnfold(s, sep, n, m);
    JoinCons(SplitN(s, sep, n), s[..m], SplitN(s[m + 1..], sep, n - 1), s[m + 1..], sep);
    SplitAt(s, m, sep);
  }

  /** SplitN takes the piece before the first separator and splits the
      rest into one piece fewer. */
  lemma SplitNUnfold(s: string, sep: char, n: nat, m: int)
    requires n > 1 && m == Index(s, sep) && m >= 0
    ensures SplitN(s, sep, n) == [s[..m]] + SplitN(s[m + 1..], sep, n - 1)
  {
    assert n != 0 && n != 1;
  }

  /** Join of a first piece followed by at least one more. */
  lemma JoinCons(parts: seq<string>, head: string, rest: seq<string>, tail: string, sep: char)
    requires parts == [head] + rest && |rest| >= 1 && Join(rest, sep) == tail
    ensures Join(parts, sep) == head + ([sep] + tail)
  {
    assert parts[1..] == rest;
  }

  /** A string is its prefix before a separator at position m, the
      separator and the rest after it. */
  lemma SplitAt(s: string, m: nat, sep: char)
    requires m < |s| && s[m] == sep
    ensures s == s[..m] + ([sep] + s[m + 1..])
  {
  }

  /** Splitting a join gives back the pieces, as long as no piece but a
      last one that fills the n-th slot contains the separator. */
  lemma {:induction false} SplitNJoin(parts: seq<string>, sep: char, n: nat)
    requires 1 <= |parts| <= n
    requires forall i :: 0 <= i < |parts| - 1 ==> sep !in parts[i]
    requires |parts| == n || sep !in parts[|parts| - 1]
    ensures SplitN(Join(parts, sep), sep, n) == parts
    decreases n
  {
    if |parts| == 1 {
      var s := parts[0];
      assert parts == [s];
      if n > 1 {
        assert Index(s, sep) == -1;
      }
    } else {
      var head, tail := parts[0], parts[1..];
      SplitNJoin(tail, sep, n - 1);
      SplitNCons(head, tail, sep, n);
      assert parts == [head] + tail;
    }
  }

  /** One step of SplitNJoin: the first piece splits off at its separator. */
  lemma SplitNCons(head: string, tail: seq<string>, sep: char, n: nat)
    requires n >= 2 && |tail| >= 1
    requires sep !in head
    ensures SplitN(Join([head] + tail, sep), sep, n) == [head] + SplitN(Join(tail, sep), sep, n - 1)
  {
    var rest := Join(tail, sep);
    var s := head + [sep] + rest;
    assert ([head] + tail)[1..] == tail;
    assert Join([head] + tail, sep) == s;
    IndexAfterPiece(head, sep, rest);
    assert s[..|head|] == head;
    assert s[|head| + 1..] == rest;
  }

  /** The first separator of `piece + [sep] + rest` is the one after
      `piece` when `piece` holds none. */
  lemma {:induction false} IndexAfterPiece(piece: string, sep: char, rest: string)
    requires sep !in piece
    ensures Index(piece + [sep] + rest, sep) == |piece|
  {
    if |piece| > 0 {
      var s := piece + [sep] + rest;
      assert s[1..] == piece[1..] + [sep] + rest;
      IndexAfterPiece(piece[1..], sep, rest);
    }
  }

  /** Go's `a < b` on strings: lexicographic order, a proper prefix first. */
  predicate Less(a: string, b: string): (r: bool)
    ensures r ==> a != b
  {
    if |a| == 0 then |b| > 0
    else if |b| == 0 then false
    else if a[0] != b[0] then a[0] < b[0]
    else Less(a[1..], b[1..])
  }

  /** Go's `a >= b` on strings. */
  predicate AtLeast(a: string, b: string): (r: bool)
    ensures a == b ==> r
  {
    !Less(a, b)
  }

  lemma {:induction false} LessIrreflexive(a: string)
    ensures !Less(a, a)
  {
    if |a| > 0 {
      LessIrreflexive(a[1..]);
    }
  }

  lemma {:induction false} LessTransitive(a: string, b: string, c: string)
    requires Less(a, b) && Less(b, c)
    ensures Less(a, c)
  {
    if |a| > 0 && |b| > 0 && |c| > 0 && a[0] == b[0] && b[0] == c[0] {
      LessTransitive(a[1..], b[1..], c[1..]);
    }
  }

  lemma {:induction false} LessTotal(a: string, b: string)
    requires a != b
    ensures Less(a, b) || Less(b, a)
  {
    if |a| > 0 && |b| > 0 && a[0] == b[0] {
      LessTotal(a[1..], b[1..]);
    }
  }

  /** `a >= b` holds exactly when b is not strictly after a: equal tokens
      and tokens that sort earlier are both "not newer". */
  lemma AtLeastIffNotAfter(a: string, b: string)
    ensures AtLeast(a, b) <==> a == b || Less(b, a)
  {
    if a == b {
      LessIrreflexive(a);
    } else {
      LessTotal(a, b);
      if Less(a, b) && Less(b, a) {
        LessTransitive(a, b, a);
        LessIrreflexive(a);
      }
    }
  }

  /** String order is not numeric order: "9" >= "10". */
  lemma StringOrderNotNumeric()
    ensures AtLeast("9", "10") && AtLeast("100", "99") == false
  {
    assert !Less("9", "10") by {
      assert "9"[0] != "10"[0];
    }
    assert Less("100", "99") by {
      assert "100"[0] != "99"[0];
    }
  }
}
