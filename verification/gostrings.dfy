/** Go's `strings.Split` and `strings.Join` for a one-character separator:
    no trimming, no de-duplication, empty pieces kept, and one more piece
    than there are separators. */
module GoStrings {

  /** `strings.Split(s, [sep])`. The empty string splits into one empty piece. */
  function Split(s: string, sep: char): (r: seq<string>)
    ensures |r| >= 1
    decreases |s|
  {
    if |s| == 0 then [""]
    else
      var rest := Split(s[1..], sep);
      if s[0] == sep then [""] + rest
      else [[s[0]] + rest[0]] + rest[1..]
  }

  /** There is one more piece than there are separators. */
  lemma {:induction false} SplitCount(s: string, sep: char)
    ensures |Split(s, sep)| == multiset(s)[sep] + 1
    decreases |s|
  {
    if |s| > 0 {
      SplitCount(s[1..], sep);
      assert s == [s[0]] + s[1..];
      assert multiset(s) == multiset{s[0]} + multiset(s[1..]);
    }
  }

  /** No piece contains the separator. */
  lemma {:induction false} SplitPiecesHaveNoSeparator(s: string, sep: char)
    ensures forall i :: 0 <= i < |Split(s, sep)| ==> sep !in Split(s, sep)[i]
    decreases |s|
  {
    if |s| > 0 {
      SplitPiecesHaveNoSeparator(s[1..], sep);
      var rest := Split(s[1..], sep);
      if s[0] != sep {
        var parts := Split(s, sep);
        assert parts == [[s[0]] + rest[0]] + rest[1..];
        forall i | 0 <= i < |parts|
          ensures sep !in parts[i]
        {
          if i > 0 {
            assert parts[i] == rest[i];
          }
        }
      }
    }
  }

  /** `strings.Join(parts, [sep])`. */
  function Join(parts: seq<string>, sep: char): string
    decreases |parts|
  {
    if |parts| == 0 then ""
    else if |parts| == 1 then parts[0]
    else parts[0] + [sep] + Join(parts[1..], sep)
  }

  /** One step of `Split`: the first character either ends the first piece
      (a separator) or is prepended to it. */
  lemma SplitStep(s: string, sep: char)
    requires |s| > 0
    ensures s[0] == sep ==> Split(s, sep) == [""] + Split(s[1..], sep)
    ensures s[0] != sep ==>
              Split(s, sep) == [[s[0]] + Split(s[1..], sep)[0]] + Split(s[1..], sep)[1..]
  {
  }

  /** Putting a character in front of the first piece puts it in front of
      the joined string. */
  lemma JoinConsFirst(c: char, parts: seq<string>, sep: char)
    requires |parts| >= 1
    ensures Join([[c] + parts[0]] + parts[1..], sep) == [c] + Join(parts, sep)
  {
    var parts' := [[c] + parts[0]] + parts[1..];
    assert parts'[0] == [c] + parts[0] && parts'[1..] == parts[1..];
    if |parts| > 1 {
      assert [c] + parts[0] + [sep] + Join(parts[1..], sep) == [c] + (parts[0] + [sep] + Join(parts[1..], sep));
    }
  }

  /** Joining the pieces with the separator gives back the input. */
  lemma {:induction false} JoinSplit(s: string, sep: char)
    ensures Join(Split(s, sep), sep) == s
    decreases |s|
  {
    if |s| > 0 {
      var rest := Split(s[1..], sep);
      assert Join(rest, sep) == s[1..] by {
        JoinSplit(s[1..], sep);
      }
      assert s == [s[0]] + s[1..];
      if s[0] == sep {
        assert Split(s, sep) == [""] + rest by {
          SplitStep(s, sep);
        }
        assert ([""] + rest)[1..] == rest;
        assert Join([""] + rest, sep) == "" + [sep] + Join(rest, sep);
      } else {
        assert Split(s, sep) == [[s[0]] + rest[0]] + rest[1..] by {
          SplitStep(s, sep);
        }
        JoinConsFirst(s[0], rest, sep);
      }
    }
  }

  /** A prefix without separators becomes the start of the first piece. */
  lemma {:induction false} SplitPrefix(a: string, t: string, sep: char)
    requires sep !in a
    ensures Split(a + t, sep) == [a + Split(t, sep)[0]] + Split(t, sep)[1..]
    decreases |a|
  {
    var st := Split(t, sep);
    if |a| == 0 {
      assert a + t == t;
      assert [a + st[0]] + st[1..] == st by {
        assert a + st[0] == st[0];
      }
    } else {
      var a' := a[1..];
      var at := a + t;
      var sa := Split(a' + t, sep);
      assert sa[0] == a' + st[0] && sa[1..] == st[1..] by {
        SplitPrefix(a', t, sep);
      }
      assert Split(at, sep) == [[a[0]] + sa[0]] + sa[1..] by {
        assert at[0] == a[0] && at[1..] == a' + t;
        SplitStep(at, sep);
      }
      assert [a[0]] + (a' + st[0]) == a + st[0];
    }
  }

  /** Splitting pieces joined by the separator gives back the pieces, provided
      there is at least one and none contains the separator. */
  lemma {:induction false} SplitJoin(parts: seq<string>, sep: char)
    requires |parts| >= 1
    requires forall i :: 0 <= i < |parts| ==> sep !in parts[i]
    ensures Split(Join(parts, sep), sep) == parts
    decreases |parts|
  {
    if |parts| == 1 {
      assert Split(parts[0] + "", sep) == [parts[0]] by {
        SplitPrefix(parts[0], "", sep);
      }
      assert parts[0] + "" == parts[0];
    } else {
      var tail := Join(parts[1..], sep);
      var st := [sep] + tail;
      assert Split(st, sep) == [""] + parts[1..] by {
        SplitJoin(parts[1..], sep);
        SplitStep(st, sep);
        assert st[1..] == tail;
      }
      assert Split(parts[0] + st, sep) == [parts[0] + ""] + parts[1..] by {
        SplitPrefix(parts[0], st, sep);
      }
      assert Join(parts, sep) == parts[0] + st;
      assert parts[0] + "" == parts[0];
      assert [parts[0]] + parts[1..] == parts;
    }
  }

  /** Empty pieces are kept: `"a,,b"` has three pieces, the middle one empty. */
  lemma SplitKeepsEmptyPieces()
    ensures Split("a,,b", ',') == ["a", "", "b"]
  {
    SplitJoin(["a", "", "b"], ',');
    assert Join(["a", "", "b"], ',') == "a,,b";
  }
}
