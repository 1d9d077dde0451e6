/** A model of the part of Go's `strings` package the port parser relies on:
    `strings.Split` with a one-character separator (and, as its partner,
    `strings.Join`). `strings.Contains(s, "-")` is Dafny's `'-' in s`. */
module GoStrings {

  /** Number of occurrences of `c` in `s`. */
  function Count(s: string, c: char): (n: nat)
    ensures n <= |s|
    ensures n == 0 <==> c !in s
  {
    if s == [] then 0 else (if s[0] == c then 1 else 0) + Count(s[1..], c)
  }

  /** `strings.Join(parts, string(sep))`. */
  function Join(parts: seq<string>, sep: char): string
  {
    if |parts| == 0 then ""
    else if |parts| == 1 then parts[0]
    else parts[0] + [sep] + Join(parts[1..], sep)
  }

  /** `strings.Split(s, string(sep))`: the pieces of `s` between occurrences
      of `sep`, empty pieces included. There is always one piece more than
      there are separators, so `Split("", sep)` is `[""]`. */
  function Split(s: string, sep: char): (parts: seq<string>)
    ensures |parts| == Count(s, sep) + 1
    decreases |s|
  {
    if s == [] then [""]
    else
      var rest := Split(s[1..], sep);
      if s[0] == sep then [""] + rest
      else [[s[0]] + rest[0]] + rest[1..]
  }

  /** No piece holds the separator. */
  lemma {:induction false} SplitPiecesLackSep(s: string, sep: char)
    ensures forall i :: 0 <= i < |Split(s, sep)| ==> sep !in Split(s, sep)[i]
    decreases |s|
  {
    if s != [] {
      SplitPiecesLackSep(s[1..], sep);
    }
  }

  /** Joining the pieces back with the separator gives the original string. */
  lemma {:induction false} JoinSplit(s: string, sep: char)
    ensures Join(Split(s, sep), sep) == s
    decreases |s|
  {
    if s != [] {
      var rest := Split(s[1..], sep);
      JoinSplit(s[1..], sep);
      if s[0] == sep {
        assert Split(s, sep) == [""] + rest;
        assert ([""] + rest)[1..] == rest;
      } else {
        var parts := [[s[0]] + rest[0]] + rest[1..];
        assert Split(s, sep) == parts;
        if |rest| == 1 {
          assert parts == [[s[0]] + rest[0]];
        } else {
          assert parts[1..] == rest[1..];
          assert Join(rest, sep) == rest[0] + [sep] + Join(rest[1..], sep);
        }
      }
    }
  }

  /** A string without the separator is one piece. */
  lemma SplitNoSep(s: string, sep: char)
    requires sep !in s
    ensures Split(s, sep) == [s]
  {
    JoinSplit(s, sep);
  }

  /** A first piece `x` that holds no separator is split off as it is. */
  lemma {:induction false} SplitAfterPiece(x: string, sep: char, y: string)
    requires sep !in x
    ensures Split(x + [sep] + y, sep) == [x] + Split(y, sep)
    decreases |x|
  {
    var s := x + [sep] + y;
    if x == [] {
      assert s[1..] == y;
    } else {
      assert s[0] == x[0] != sep;
      assert s[1..] == x[1..] + [sep] + y;
      SplitAfterPiece(x[1..], sep, y);
      var rest := Split(s[1..], sep);
      assert rest[0] == x[1..] && rest[1..] == Split(y, sep);
      assert [x[0]] + x[1..] == x;
    }
  }

  /** Appending a separator appends one empty piece. */
  lemma {:induction false} SplitTrailingSep(s: string, sep: char)
    ensures Split(s + [sep], sep) == Split(s, sep) + [""]
    decreases |s|
  {
    if s == [] {
      assert Split([sep], sep) == [""] + Split([], sep);
    } else {
      assert (s + [sep])[1..] == s[1..] + [sep];
      SplitTrailingSep(s[1..], sep);
      var rest := Split(s[1..], sep);
      var rest' := Split(s[1..] + [sep], sep);
      assert rest' == rest + [""];
      if s[0] == sep {
        assert Split(s + [sep], sep) == [""] + rest';
        assert Split(s, sep) == [""] + rest;
      } else {
        assert rest'[0] == rest[0] && rest'[1..] == rest[1..] + [""];
        assert Split(s + [sep], sep) == [[s[0]] + rest'[0]] + rest'[1..];
        assert Split(s, sep) == [[s[0]] + rest[0]] + rest[1..];
      }
    }
  }

  /** Every character of `s` other than the separator lies in one of its pieces. */
  lemma {:induction false} SplitCovers(s: string, sep: char, c: char)
    requires c in s && c != sep
    ensures exists i :: 0 <= i < |Split(s, sep)| && c in Split(s, sep)[i]
    decreases |s|
  {
    var rest := Split(s[1..], sep);
    var parts := Split(s, sep);
    if s[0] == c {
      assert parts == [[s[0]] + rest[0]] + rest[1..];
      assert c in parts[0];
    } else {
      assert c in s[1..];
      SplitCovers(s[1..], sep, c);
      var i :| 0 <= i < |rest| && c in rest[i];
      if s[0] == sep {
        assert parts == [""] + rest;
        assert parts[i + 1] == rest[i];
      } else {
        assert parts == [[s[0]] + rest[0]] + rest[1..];
        if i == 0 {
          assert c in parts[0];
        } else {
          assert parts[i] == rest[i];
        }
      }
    }
  }
}
