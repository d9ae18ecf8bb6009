/** The two string built-ins the label parser relies on, String.prototype.trim
    and String.prototype.split with a one-character separator, over strings
    taken as sequences of characters. */
module Strings {

  /** The code points String.prototype.trim removes: WhiteSpace and
      LineTerminator of ECMA-262 (2023), sections 12.2 and 12.3 (the space
      separators of Unicode 15 included). */
  predicate IsWhitespace(c: char) {
    var n := c as int;
    n == 0x09 || n == 0x0A || n == 0x0B || n == 0x0C || n == 0x0D || n == 0x20
    || n == 0xA0 || n == 0x1680 || (0x2000 <= n <= 0x200A) || n == 0x2028
    || n == 0x2029 || n == 0x202F || n == 0x205F || n == 0x3000 || n == 0xFEFF
  }

  /** Neither starts nor ends with white space. */
  predicate IsTrimmed(s: string) {
    s == [] || (!IsWhitespace(s[0]) && !IsWhitespace(s[|s| - 1]))
  }

  /** The longest suffix of `s` that does not start with white space. */
  function TrimStart(s: string): (r: string)
    ensures |r| <= |s|
    ensures r == [] || !IsWhitespace(r[0])
    ensures forall k :: 0 <= k < |s| - |r| ==> IsWhitespace(s[k])
  {
    if s != [] && IsWhitespace(s[0]) then TrimStart(s[1..]) else s
  }

  /** What TrimStart keeps is a suffix of its input. */
  lemma {:induction false} TrimStartIsSuffix(s: string)
    ensures TrimStart(s) == s[|s| - |TrimStart(s)|..]
  {
    if s != [] && IsWhitespace(s[0]) {
      TrimStartIsSuffix(s[1..]);
      assert s[1..][|s| - 1 - |TrimStart(s[1..])|..] == s[|s| - |TrimStart(s[1..])|..];
    }
  }

  /** The longest prefix of `s` that does not end with white space. */
  function TrimEnd(s: string): (r: string)
    ensures |r| <= |s|
    ensures r == [] || !IsWhitespace(r[|r| - 1])
    ensures forall k :: |r| <= k < |s| ==> IsWhitespace(s[k])
    ensures r != [] ==> r[0] == s[0]
  {
    if s != [] && IsWhitespace(s[|s| - 1]) then TrimEnd(s[..|s| - 1]) else s
  }

  /** What TrimEnd keeps is a prefix of its input. */
  lemma {:induction false} TrimEndIsPrefix(s: string)
    ensures TrimEnd(s) == s[..|TrimEnd(s)|]
  {
    if s != [] && IsWhitespace(s[|s| - 1]) {
      TrimEndIsPrefix(s[..|s| - 1]);
      assert s[..|s| - 1][..|TrimEnd(s[..|s| - 1])|] == s[..|TrimEnd(s[..|s| - 1])|];
    }
  }

  /** String.prototype.trim: white space removed from both ends. */
  function Trim(s: string): (r: string)
    ensures IsTrimmed(r)
  {
    TrimEnd(TrimStart(s))
  }

  /** A prefix `r` of a suffix `t` of `s` is a slice of `s`; white space
      after `r` in `t` is white space after that slice in `s`. */
  lemma PrefixOfSuffix(s: string, t: string, r: string)
    requires |t| <= |s| && t == s[|s| - |t|..]
    requires |r| <= |t| && r == t[..|r|]
    requires forall k :: |r| <= k < |t| ==> IsWhitespace(t[k])
    ensures r == s[|s| - |t|..|s| - |t| + |r|]
    ensures forall k :: |s| - |t| + |r| <= k < |s| ==> IsWhitespace(s[k])
  {
    var i := |s| - |t|;
    forall k | i + |r| <= k < |s| ensures IsWhitespace(s[k]) {
      assert s[k] == t[k - i];
    }
  }

  /** Trim removes exactly a white-space prefix and a white-space suffix:
      what remains is the slice s[i..j]. */
  lemma TrimIsSlice(s: string) returns (i: nat, j: nat)
    ensures i <= j <= |s| && Trim(s) == s[i..j]
    ensures forall k :: 0 <= k < i ==> IsWhitespace(s[k])
    ensures forall k :: j <= k < |s| ==> IsWhitespace(s[k])
  {
    var t := TrimStart(s);
    var r := TrimEnd(t);
    TrimStartIsSuffix(s);
    TrimEndIsPrefix(t);
    PrefixOfSuffix(s, t, r);
    i := |s| - |t|;
    j := i + |r|;
  }

  /** Trim only removes characters. */
  lemma TrimKeepsChars(s: string)
    ensures forall c :: c in Trim(s) ==> c in s
  {
    var i, j := TrimIsSlice(s);
    forall c | c in Trim(s) ensures c in s {
      var k :| 0 <= k < j - i && s[i..j][k] == c;
      assert s[i + k] == c;
    }
  }

  /** Trimming a trimmed string changes nothing; in particular trim is idempotent. */
  lemma TrimOfTrimmed(s: string)
    requires IsTrimmed(s)
    ensures Trim(s) == s
  {
  }

  /** String.prototype.split with separator `sep`: the maximal runs between
      separators, including the empty ones at either end or between two
      adjacent separators. The empty string splits into one empty piece. */
  function Split(s: string, sep: char): (r: seq<string>)
    ensures r != []
  {
    if s == [] then [[]]
    else
      var rest := Split(s[1..], sep);
      if s[0] == sep then [[]] + rest
      else [[s[0]] + rest[0]] + rest[1..]
  }

  /** There is one piece more than there are separators. */
  lemma {:induction false} SplitLength(s: string, sep: char)
    ensures |Split(s, sep)| == multiset(s)[sep] + 1
  {
    if s != [] {
      SplitLength(s[1..], sep);
      assert s == [s[0]] + s[1..];
    }
  }

  /** No piece contains the separator. */
  lemma {:induction false} SplitPiecesLackSeparator(s: string, sep: char)
    ensures forall k :: 0 <= k < |Split(s, sep)| ==> sep !in Split(s, sep)[k]
  {
    if s != [] {
      SplitPiecesLackSeparator(s[1..], sep);
      var rest := Split(s[1..], sep);
      if s[0] != sep {
        assert sep !in [s[0]] + rest[0];
      }
    }
  }

  /** The pieces written back with `sep` between them (Array.prototype.join). */
  function Join(parts: seq<string>, sep: char): (r: string)
    requires parts != []
    decreases |parts|
  {
    if |parts| == 1 then parts[0] else parts[0] + [sep] + Join(parts[1..], sep)
  }

  /** Join of a list that starts with an empty piece. */
  lemma JoinAfterEmpty(rest: seq<string>, sep: char)
    requires rest != []
    ensures Join([[]] + rest, sep) == [sep] + Join(rest, sep)
  {
    var parts := [[]] + rest;
    assert parts[0] == [] && parts[1..] == rest;
  }

  /** Join of a list whose first piece is `c` followed by the first piece of `rest`. */
  lemma JoinAfterChar(c: char, rest: seq<string>, sep: char)
    requires rest != []
    ensures Join([[c] + rest[0]] + rest[1..], sep) == [c] + Join(rest, sep)
  {
    var parts := [[c] + rest[0]] + rest[1..];
    if |rest| > 1 {
      assert parts[1..] == rest[1..];
      var tail := Join(rest[1..], sep);
      assert ([c] + rest[0]) + [sep] + tail == [c] + (rest[0] + [sep] + tail);
    }
  }

  /** Joining the pieces of a split gives back the original string. */
  lemma {:induction false} JoinSplit(s: string, sep: char)
    ensures Join(Split(s, sep), sep) == s
  {
    if s != [] {
      var rest := Split(s[1..], sep);
      JoinSplit(s[1..], sep);
      if s[0] == sep {
        JoinAfterEmpty(rest, sep);
      } else {
        JoinAfterChar(s[0], rest, sep);
      }
      assert s == [s[0]] + s[1..];
    }
  }

  /** Splitting a separator-free string followed by the separator peels off
      that string as the first piece. */
  lemma {:induction false} SplitAfterPiece(p: string, sep: char, rest: string)
    requires sep !in p
    ensures Split(p + [sep] + rest, sep) == [p] + Split(rest, sep)
  {
    if p == [] {
      assert p + [sep] + rest == [sep] + rest;
      assert ([sep] + rest)[1..] == rest;
    } else {
      var s := p + [sep] + rest;
      assert s[1..] == p[1..] + [sep] + rest;
      SplitAfterPiece(p[1..], sep, rest);
      assert [p[0]] + p[1..] == p;
    }
  }

  /** Splitting the join of separator-free pieces gives back the pieces. */
  lemma {:induction false} SplitJoin(parts: seq<string>, sep: char)
    requires parts != []
    requires forall k :: 0 <= k < |parts| ==> sep !in parts[k]
    ensures Split(Join(parts, sep), sep) == parts
    decreases |parts|
  {
    if |parts| == 1 {
      SplitOfPiece(parts[0], sep);
    } else {
      SplitJoin(parts[1..], sep);
      SplitAfterPiece(parts[0], sep, Join(parts[1..], sep));
      assert [parts[0]] + parts[1..] == parts;
    }
  }

  /** A separator-free string splits into itself alone. */
  lemma {:induction false} SplitOfPiece(p: string, sep: char)
    requires sep !in p
    ensures Split(p, sep) == [p]
  {
    if p != [] {
      SplitOfPiece(p[1..], sep);
      assert [p[0]] + p[1..] == p;
    }
  }

  /** Every character of a piece comes from the split string. */
  lemma {:induction false} SplitPiecesComeFromInput(s: string, sep: char)
    ensures forall k, c :: 0 <= k < |Split(s, sep)| && c in Split(s, sep)[k] ==> c in s
  {
    if s != [] {
      SplitPiecesComeFromInput(s[1..], sep);
      var rest := Split(s[1..], sep);
      var parts := Split(s, sep);
      forall k, c | 0 <= k < |parts| && c in parts[k] ensures c in s {
        assert s == [s[0]] + s[1..];
        if s[0] == sep {
          assert k > 0 && parts[k] == rest[k - 1];
        } else if k > 0 {
          assert parts[k] == rest[k];
        } else {
          assert c == s[0] || c in rest[0];
        }
      }
    }
  }

  /** A string made only of white space trims to the empty string. */
  lemma {:induction false} TrimOfBlank(s: string)
    requires forall c :: c in s ==> IsWhitespace(c)
    ensures Trim(s) == []
  {
    if s != [] {
      assert s[0] in s;
      assert forall c :: c in s[1..] ==> c in s;
      TrimOfBlank(s[1..]);
      assert TrimStart(s) == TrimStart(s[1..]);
    }
  }
}
