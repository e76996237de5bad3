/** The string primitives the task list uses: `trim`, `split(',')`, `toLowerCase` and
    `includes`, with their meaning stated independently of how they are computed. */
module Text {

  /** The characters `String.prototype.trim` removes: ECMAScript WhiteSpace
      (tab, vertical tab, form feed, space, no-break space, the byte order mark and
      every other space separator) and LineTerminator (LF, CR, U+2028, U+2029). */
  predicate IsSpace(c: char) {
    var n := c as int;
    n == 0x09 || n == 0x0A || n == 0x0B || n == 0x0C || n == 0x0D || n == 0x20
    || n == 0xA0 || n == 0x1680 || (0x2000 <= n <= 0x200A) || n == 0x2028 || n == 0x2029
    || n == 0x202F || n == 0x205F || n == 0x3000 || n == 0xFEFF
  }

  ghost predicate AllSpace(s: string) {
    forall k :: 0 <= k < |s| ==> IsSpace(s[k])
  }

  /** Drops leading whitespace; the result does not start with whitespace. */
  function TrimStart(s: string): (r: string)
    ensures |r| <= |s|
    ensures r != [] ==> !IsSpace(r[0])
  {
    if s != [] && IsSpace(s[0]) then TrimStart(s[1..]) else s
  }

  /** What `TrimStart` drops is a whitespace prefix, and it keeps the rest. */
  lemma {:induction false} TrimStartSlice(s: string)
    ensures var r := TrimStart(s); r == s[|s| - |r|..] && AllSpace(s[..|s| - |r|])
  {
    if s != [] && IsSpace(s[0]) {
      TrimStartSlice(s[1..]);
      var r := TrimStart(s);
      var n := |s| - |r|;
      assert r == s[1..][n - 1..];
      forall k | 0 <= k < n ensures IsSpace(s[..n][k]) {
        if k > 0 {
          assert s[..n][k] == s[1..][..n - 1][k - 1];
        }
      }
    }
  }

  /** Drops trailing whitespace; the result does not end with whitespace. */
  function TrimEnd(s: string): (r: string)
    ensures |r| <= |s|
    ensures r != [] ==> !IsSpace(r[|r| - 1])
  {
    if s != [] && IsSpace(s[|s| - 1]) then TrimEnd(s[..|s| - 1]) else s
  }

  /** What `TrimEnd` drops is a whitespace suffix, and it keeps the rest. */
  lemma {:induction false} TrimEndSlice(s: string)
    ensures var r := TrimEnd(s); r == s[..|r|] && AllSpace(s[|r|..])
  {
    if s != [] && IsSpace(s[|s| - 1]) {
      var u := s[..|s| - 1];
      TrimEndSlice(u);
      var r := TrimEnd(s);
      assert r == u[..|r|];
      forall k | |r| <= k < |s| ensures IsSpace(s[k]) {
        if k < |s| - 1 {
          assert u[|r|..][k - |r|] == s[k];
        }
      }
    }
  }

  /** `String.prototype.trim`: `s` without its leading and trailing whitespace; the result
      neither starts nor ends with whitespace. */
  function Trim(s: string): (r: string)
    ensures |r| <= |s|
    ensures r != [] ==> !IsSpace(r[0]) && !IsSpace(r[|r| - 1])
  {
    var t := TrimStart(s);
    TrimEndSlice(t);
    TrimEnd(t)
  }

  /** The trimmed string is a slice of `s`, and everything cut off is whitespace. */
  lemma TrimIsSlice(s: string)
    ensures exists i :: 0 <= i <= |s| - |Trim(s)| && Trim(s) == s[i..i + |Trim(s)|]
                        && AllSpace(s[..i]) && AllSpace(s[i + |Trim(s)|..])
  {
    var t := TrimStart(s);
    TrimStartSlice(s);
    TrimEndSlice(t);
    var r := TrimEnd(t);
    var i := |s| - |t|;
    assert r == s[i..i + |r|];
    assert s[i + |r|..] == t[|r|..];
  }

  /** Trimming introduces no character that was not there. */
  lemma TrimKeepsOut(s: string, c: char)
    ensures c !in s ==> c !in Trim(s)
  {
    var r := Trim(s);
    TrimIsSlice(s);
    var i :| 0 <= i <= |s| - |r| && r == s[i..i + |r|] && AllSpace(s[..i]) && AllSpace(s[i + |r|..]);
    assert forall j :: 0 <= j < |r| ==> r[j] == s[i + j];
  }

  /** A string with no whitespace at either end is its own trim. */
  lemma TrimTrimmed(s: string)
    requires s != [] ==> !IsSpace(s[0]) && !IsSpace(s[|s| - 1])
    ensures Trim(s) == s
  {
    TrimStartAt(s, 0);
    assert s[0..] == s;
    TrimEndAt(s, |s|);
  }

  /** Leading whitespace ends at the first non-whitespace character. */
  lemma {:induction false} TrimStartAt(s: string, i: nat)
    requires i <= |s| && AllSpace(s[..i]) && (i < |s| ==> !IsSpace(s[i]))
    ensures TrimStart(s) == s[i..]
  {
    if i > 0 {
      assert s[..i][0] == s[0];
      var u := s[1..];
      var v := u[..i - 1];
      assert AllSpace(v) by {
        forall k | 0 <= k < |v| ensures IsSpace(v[k]) {
          assert v[k] == s[..i][k + 1];
        }
      }
      if i < |s| {
        assert s[1..][i - 1] == s[i];
      }
      TrimStartAt(s[1..], i - 1);
      assert s[1..][i - 1..] == s[i..];
    }
  }

  /** Trailing whitespace starts after the last non-whitespace character. */
  lemma {:induction false} TrimEndAt(s: string, j: nat)
    requires j <= |s| && AllSpace(s[j..]) && (j > 0 ==> !IsSpace(s[j - 1]))
    ensures TrimEnd(s) == s[..j]
    decreases |s| - j
  {
    if j < |s| {
      var u := s[..|s| - 1];
      assert s[j..][|s| - 1 - j] == s[|s| - 1];
      assert AllSpace(u[j..]) by {
        forall k | 0 <= k < |u| - j ensures IsSpace(u[j..][k]) {
          assert u[j..][k] == s[j..][k];
        }
      }
      if j > 0 {
        assert u[j - 1] == s[j - 1];
      }
      TrimEndAt(u, j);
      assert u[..j] == s[..j];
    }
  }

  /** Trimming is characterised by where it cuts: a whitespace prefix `s[..i]`, a whitespace
      suffix `s[j..]` and a middle `s[i..j]` that neither starts nor ends with whitespace leave
      exactly that middle. */
  lemma TrimAt(s: string, i: nat, j: nat)
    requires i < j <= |s|
    requires AllSpace(s[..i]) && AllSpace(s[j..])
    requires !IsSpace(s[i]) && !IsSpace(s[j - 1])
    ensures Trim(s) == s[i..j]
  {
    TrimStartAt(s, i);
    var t := s[i..];
    assert AllSpace(t[j - i..]) by {
      assert t[j - i..] == s[j..];
    }
    assert t[j - i - 1] == s[j - 1];
    TrimEndAt(t, j - i);
    assert t[..j - i] == s[i..j];
  }

  /** `!s.trim()` in JavaScript: the trimmed string is empty, that is, `s` is all whitespace. */
  function IsBlank(s: string): (b: bool)
    ensures b <==> AllSpace(s)
  {
    TrimEmpty(s);
    Trim(s) == []
  }

  lemma TrimEmpty(s: string)
    ensures Trim(s) == [] <==> AllSpace(s)
  {
    var t := TrimStart(s);
    TrimStartSlice(s);
    TrimEndSlice(t);
    var n := |s| - |t|;
    if TrimEnd(t) == [] {
      assert t[0..] == t;
      assert t == [];
      forall k | 0 <= k < |s| ensures IsSpace(s[k]) {
        assert s[..n][k] == s[k];
      }
    }
    if AllSpace(s) {
      assert s[..|s|] == s;
      TrimStartAt(s, |s|);
    }
  }

  /** `s.split(sep)`: the pieces between occurrences of `sep`; there is always at least one
      piece, and no piece contains `sep`. */
  function Split(s: string, sep: char): (parts: seq<string>)
    ensures |parts| >= 1
    ensures forall k :: 0 <= k < |parts| ==> sep !in parts[k]
  {
    if s == [] then [""]
    else
      var rest := Split(s[1..], sep);
      if s[0] == sep then [""] + rest
      else [[s[0]] + rest[0]] + rest[1..]
  }

  /** `parts.join(sep)`: the pieces with `sep` between consecutive ones. */
  function Join(parts: seq<string>, sep: char): string
  {
    if parts == [] then ""
    else if |parts| == 1 then parts[0]
    else parts[0] + [sep] + Join(parts[1..], sep)
  }

  /** Splitting loses nothing: joining the pieces back gives the original string. */
  lemma {:induction false} JoinSplit(s: string, sep: char)
    ensures Join(Split(s, sep), sep) == s
  {
    if s != [] {
      var rest := Split(s[1..], sep);
      JoinSplit(s[1..], sep);
      var parts := Split(s, sep);
      if s[0] == sep {
        assert parts[1..] == rest;
      } else {
        assert parts[0] == [s[0]] + rest[0] && parts[1..] == rest[1..];
        if |rest| > 1 {
          assert Join(rest, sep) == rest[0] + [sep] + Join(rest[1..], sep);
        }
        assert s == [s[0]] + s[1..];
      }
    }
  }

  /** Splitting a string that starts with a piece free of `sep` puts that piece in front of
      the first piece of the rest. */
  lemma {:induction false} SplitPrefix(w: string, t: string, sep: char)
    requires sep !in w
    ensures Split(w + t, sep) == [w + Split(t, sep)[0]] + Split(t, sep)[1..]
  {
    if w != [] {
      SplitPrefix(w[1..], t, sep);
      assert (w + t)[0] == w[0] && (w + t)[1..] == w[1..] + t;
      assert [w[0]] + (w[1..] + Split(t, sep)[0]) == w + Split(t, sep)[0];
    } else {
      var parts := Split(t, sep);
      assert w + t == t && w + parts[0] == parts[0];
      assert [parts[0]] + parts[1..] == parts;
    }
  }

  /** Joining is undone by splitting, when no piece contains the separator. */
  lemma {:induction false} SplitJoin(parts: seq<string>, sep: char)
    requires |parts| >= 1
    requires forall k :: 0 <= k < |parts| ==> sep !in parts[k]
    ensures Split(Join(parts, sep), sep) == parts
  {
    var w := parts[0];
    if |parts| == 1 {
      SplitPrefix(w, "", sep);
      assert w + "" == w;
    } else {
      var rest := parts[1..];
      SplitJoin(rest, sep);
      var j := Join(rest, sep);
      assert Join(parts, sep) == w + ([sep] + j);
      SplitPrefix(w, [sep] + j, sep);
      assert ([sep] + j)[0] == sep && ([sep] + j)[1..] == j;
      assert Split([sep] + j, sep) == [""] + rest;
      assert w + "" == w;
      assert ([""] + rest)[0] == "" && ([""] + rest)[1..] == rest;
      assert parts == [w] + rest;
    }
  }

  /** ASCII case folding: `A`..`Z` become `a`..`z`, every other character is kept, and no
      upper-case letter is left. */
  function LowerChar(c: char): (d: char)
    ensures 'A' <= c <= 'Z' ==> 'a' <= d <= 'z' && d as int - 'a' as int == c as int - 'A' as int
    ensures !('A' <= c <= 'Z') ==> d == c
    ensures !('A' <= d <= 'Z')
  {
    if 'A' <= c <= 'Z' then (c as int + 32) as char else c
  }

  /** `s.toLowerCase()`, character by character: the result has no upper-case letter. */
  function Lower(s: string): (r: string)
    ensures |r| == |s|
    ensures forall k :: 0 <= k < |s| ==> r[k] == LowerChar(s[k])
    ensures forall k :: 0 <= k < |r| ==> !('A' <= r[k] <= 'Z')
  {
    seq(|s|, k requires 0 <= k < |s| => LowerChar(s[k]))
  }

  /** Text without upper-case letters is its own fold. */
  lemma LowerFixed(s: string)
    requires forall k :: 0 <= k < |s| ==> !('A' <= s[k] <= 'Z')
    ensures Lower(s) == s
  {
  }

  /** Folding twice is folding once. */
  lemma LowerIdempotent(s: string)
    ensures Lower(Lower(s)) == Lower(s)
  {
  }

  /** `needle` occurs in `hay` starting at position `i`. */
  ghost predicate OccursAt(needle: string, hay: string, i: int) {
    0 <= i <= |hay| - |needle| && hay[i..i + |needle|] == needle
  }

  /** `needle` occurs in `hay` at some position. */
  ghost predicate IsSubstring(needle: string, hay: string) {
    exists i :: OccursAt(needle, hay, i)
  }

  /** `hay.includes(needle)`, by trying every start position in turn. */
  function Contains(hay: string, needle: string): (b: bool)
    ensures b <==> IsSubstring(needle, hay)
  {
    if needle <= hay then
      assert OccursAt(needle, hay, 0);
      true
    else if hay == [] then
      false
    else
      var b := Contains(hay[1..], needle);
      SubstringOfTail(needle, hay);
      b
  }

  /** An occurrence of `needle` in `hay` is at the front or in `hay[1..]`. */
  lemma SubstringOfTail(needle: string, hay: string)
    requires hay != []
    ensures IsSubstring(needle, hay) <==> needle <= hay || IsSubstring(needle, hay[1..])
  {
    if IsSubstring(needle, hay) && !(needle <= hay) {
      var i :| OccursAt(needle, hay, i);
      assert i != 0;
      assert OccursAt(needle, hay[1..], i - 1);
    }
    if needle <= hay {
      assert OccursAt(needle, hay, 0);
    }
    if IsSubstring(needle, hay[1..]) {
      var j :| OccursAt(needle, hay[1..], j);
      assert OccursAt(needle, hay, j + 1);
    }
  }
}
