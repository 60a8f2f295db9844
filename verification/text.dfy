/**
 * ASCII character classes and the small string helpers the Go standard
 * library supplies to the package (`strings.Split`, `strings.HasPrefix`,
 * `strings.TrimPrefix`, `strings.TrimSuffix`, joining with a separator).
 * Characters stand for Go runes; only the ASCII range is classified.
 */
module Text {

  predicate IsUpper(c: char) {
    'A' <= c <= 'Z'
  }

  predicate IsLower(c: char) {
    'a' <= c <= 'z'
  }

  predicate IsLetter(c: char) {
    IsUpper(c) || IsLower(c)
  }

  predicate IsDigit(c: char) {
    '0' <= c <= '9'
  }

  predicate IsAscii(s: string) {
    forall i :: 0 <= i < |s| ==> s[i] < 128 as char
  }

  /** `unicode.ToLower` restricted to ASCII: upper-case letters move down by 32, anything else is kept. */
  function Lower(c: char): (l: char)
    ensures !IsUpper(l)
    ensures IsUpper(c) ==> IsLower(l) && l as int == c as int + 32
    ensures !IsUpper(c) ==> l == c
  {
    if IsUpper(c) then (c as int + 32) as char else c
  }

  function LowerString(s: string): (l: string)
    ensures |l| == |s|
    ensures forall i :: 0 <= i < |s| ==> l[i] == Lower(s[i])
  {
    if s == [] then [] else [Lower(s[0])] + LowerString(s[1..])
  }

  /** `s` with every occurrence of `c` deleted. */
  function Remove(s: string, c: char): (r: string)
    ensures c !in r
    ensures |r| <= |s|
  {
    if s == [] then []
    else if s[0] == c then Remove(s[1..], c)
    else [s[0]] + Remove(s[1..], c)
  }

  lemma RemoveAppend(a: string, b: string, c: char)
    ensures Remove(a + b, c) == Remove(a, c) + Remove(b, c)
  {
    if a == [] {
      assert a + b == b;
    } else {
      assert (a + b)[1..] == a[1..] + b;
      RemoveAppend(a[1..], b, c);
    }
  }

  function Count(s: string, c: char): nat {
    if s == [] then 0 else (if s[0] == c then 1 else 0) + Count(s[1..], c)
  }

  /** The parts of `parts` written one after another with `sep` between neighbours. */
  function Join(parts: seq<string>, sep: string): string {
    if |parts| == 0 then ""
    else if |parts| == 1 then parts[0]
    else parts[0] + sep + Join(parts[1..], sep)
  }

  /** Appending one more part adds a separator only when there was already a part. */
  lemma {:induction false} JoinSnoc(parts: seq<string>, last: string, sep: string)
    ensures Join(parts + [last], sep) == if parts == [] then last else Join(parts, sep) + sep + last
    decreases |parts|
  {
    if |parts| == 1 {
      assert parts + [last] == [parts[0], last];
    } else if |parts| > 1 {
      assert (parts + [last])[1..] == parts[1..] + [last];
      JoinSnoc(parts[1..], last, sep);
    }
  }

  /** A join of parts that are each at least `n` long is at least `n` long. */
  lemma JoinLength(parts: seq<string>, sep: string, n: nat)
    requires |parts| > 0 && forall i :: 0 <= i < |parts| ==> |parts[i]| >= n
    ensures |Join(parts, sep)| >= n
  {
  }

  /** `strings.Split(s, string(c))`: the maximal `c`-free runs of `s`, in order; `""` splits into `[""]`. */
  function Split(s: string, c: char): (parts: seq<string>)
    ensures |parts| == Count(s, c) + 1
    ensures forall i :: 0 <= i < |parts| ==> c !in parts[i]
  {
    if s == [] then [""]
    else
      var rest := Split(s[1..], c);
      if s[0] == c then [""] + rest
      else [[s[0]] + rest[0]] + rest[1..]
  }

  /** Splitting and re-joining on the same character gives the input back. */
  lemma {:induction false} JoinSplit(s: string, c: char)
    ensures Join(Split(s, c), [c]) == s
  {
    if s != [] {
      var rest := Split(s[1..], c);
      JoinSplit(s[1..], c);
      if s[0] == c {
        assert Split(s, c) == [""] + rest;
        assert ([""] + rest)[1..] == rest;
        assert Join([""] + rest, [c]) == "" + [c] + Join(rest, [c]);
        assert s == [s[0]] + s[1..];
      } else {
        var parts := Split(s, c);
        assert parts == [[s[0]] + rest[0]] + rest[1..];
        if |rest| == 1 {
          assert Join(rest, [c]) == rest[0];
          assert s == [s[0]] + s[1..];
        } else {
          assert parts[1..] == rest[1..];
          assert Join(rest, [c]) == rest[0] + [c] + Join(rest[1..], [c]);
          assert s == [s[0]] + s[1..];
        }
      }
    }
  }

  /** Joining separator-free parts and splitting again recovers the parts. */
  lemma {:induction false} SplitJoin(parts: seq<string>, c: char)
    requires |parts| >= 1
    requires forall i :: 0 <= i < |parts| ==> c !in parts[i]
    ensures Split(Join(parts, [c]), c) == parts
  {
    if |parts| == 1 {
      SplitNoSep(parts[0], c);
    } else {
      SplitJoin(parts[1..], c);
      SplitPrefixed(parts[0], Join(parts[1..], [c]), c);
      assert [parts[0]] + parts[1..] == parts;
    }
  }

  lemma {:induction false} SplitNoSep(s: string, c: char)
    requires c !in s
    ensures Split(s, c) == [s]
  {
    if s != [] {
      SplitNoSep(s[1..], c);
      assert [s[0]] + s[1..] == s;
    }
  }

  lemma {:induction false} SplitPrefixed(p: string, t: string, c: char)
    requires c !in p
    ensures Split(p + [c] + t, c) == [p] + Split(t, c)
  {
    if p == [] {
      assert p + [c] + t == [c] + t;
      assert ([c] + t)[1..] == t;
    } else {
      assert (p + [c] + t)[1..] == p[1..] + [c] + t;
      SplitPrefixed(p[1..], t, c);
      assert [p[0]] + p[1..] == p;
    }
  }

  /** Appending the separator to a split text opens a new, empty last part. */
  lemma {:induction false} SplitSnocSep(t: string, c: char)
    ensures Split(t + [c], c) == Split(t, c) + [""]
    decreases |t|
  {
    if t == [] {
      assert t + [c] == [c];
      assert [c][1..] == [];
    } else {
      var r := Split(t[1..], c);
      assert (t + [c])[1..] == t[1..] + [c];
      assert (t + [c])[0] == t[0];
      SplitSnocSep(t[1..], c);
      if t[0] == c {
        assert Split(t + [c], c) == [""] + (r + [""]);
      } else {
        assert (r + [""])[0] == r[0] && (r + [""])[1..] == r[1..] + [""];
        assert Split(t + [c], c) == [[t[0]] + r[0]] + (r[1..] + [""]);
      }
    }
  }

  /** Appending any other character to a split text extends its last part. */
  lemma {:induction false} SplitSnocOther(t: string, x: char, c: char)
    requires x != c
    ensures var p := Split(t, c);
      Split(t + [x], c) == p[..|p| - 1] + [p[|p| - 1] + [x]]
    decreases |t|
  {
    if t == [] {
      assert t + [x] == [x];
      assert [x][1..] == [];
      assert Split([x], c) == [[x] + ""];
      var p := Split(t, c);
      assert p == [""];
      assert p[..|p| - 1] + [p[|p| - 1] + [x]] == [[x]];
      assert [x] + "" == [x];
    } else {
      var r := Split(t[1..], c);
      var r2 := r[..|r| - 1] + [r[|r| - 1] + [x]];
      assert (t + [x])[1..] == t[1..] + [x];
      assert (t + [x])[0] == t[0];
      SplitSnocOther(t[1..], x, c);
      assert Split(t[1..] + [x], c) == r2;
      var p := Split(t, c);
      if t[0] == c {
        assert p == [""] + r;
        assert Split(t + [x], c) == [""] + r2;
        assert p[..|p| - 1] == [""] + r[..|r| - 1];
      } else {
        assert p == [[t[0]] + r[0]] + r[1..];
        assert Split(t + [x], c) == [[t[0]] + r2[0]] + r2[1..];
        if |r| == 1 {
          assert r2 == [r[0] + [x]];
          assert [t[0]] + (r[0] + [x]) == ([t[0]] + r[0]) + [x];
        } else {
          assert r2[0] == r[0];
          assert r2[1..] == r[1..|r| - 1] + [r[|r| - 1] + [x]];
          var a := [t[0]] + r[0];
          assert |p| == |r|;
          assert p[..|p| - 1] == [a] + r[1..][..|r| - 2];
          assert r[1..][..|r| - 2] == r[1..|r| - 1];
        }
      }
    }
  }

  predicate HasPrefix(s: string, p: string) {
    |p| <= |s| && s[..|p|] == p
  }

  /** `strings.TrimPrefix`: drops `p` once when `s` starts with it. */
  function TrimPrefix(s: string, p: string): (r: string)
    ensures HasPrefix(s, p) ==> s == p + r
    ensures !HasPrefix(s, p) ==> r == s
  {
    if HasPrefix(s, p) then s[|p|..] else s
  }

  predicate HasSuffix(s: string, p: string) {
    |p| <= |s| && s[|s| - |p|..] == p
  }

  /** `strings.TrimSuffix`: drops `p` once when `s` ends with it. */
  function TrimSuffix(s: string, p: string): (r: string)
    ensures HasSuffix(s, p) ==> s == r + p
    ensures !HasSuffix(s, p) ==> r == s
  {
    if HasSuffix(s, p) then s[..|s| - |p|] else s
  }
}
