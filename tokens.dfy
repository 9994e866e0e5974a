/**
 * Foundation's `String.components(separatedBy: " ")` specialised to a
 * one-character separator: the text is cut at every space, the pieces keep
 * their order and an empty piece is kept wherever two spaces touch, the
 * text starts or ends with a space, or the text is empty.
 */
module Tokens {

  const Space: char := ' '

  /** The pieces of `s` between its spaces. */
  function Split(s: string): (r: seq<string>)
    ensures |r| >= 1
  {
    if s == [] then [""]
    else
      var rest := Split(s[1..]);
      if s[0] == Space then [""] + rest
      else [[s[0]] + rest[0]] + rest[1..]
  }

  /** The pieces glued back together with one space between neighbours. */
  function Join(ts: seq<string>): string
    requires |ts| >= 1
  {
    if |ts| == 1 then ts[0] else ts[0] + [Space] + Join(ts[1..])
  }

  ghost predicate NoSpaceIn(ts: seq<string>) {
    forall k :: 0 <= k < |ts| ==> Space !in ts[k]
  }

  /** Splitting loses nothing: the pieces joined by spaces give the text back. */
  lemma {:induction false} JoinSplit(s: string)
    ensures Join(Split(s)) == s
  {
    if s != [] {
      var rest := Split(s[1..]);
      JoinSplit(s[1..]);
      if s[0] == Space {
        assert Split(s) == [""] + rest;
        assert Split(s)[1..] == rest;
      } else {
        var r := Split(s);
        assert r == [[s[0]] + rest[0]] + rest[1..];
        if |rest| == 1 {
          assert Join(rest) == rest[0];
        } else {
          assert r[1..] == rest[1..];
          assert Join(rest) == rest[0] + [Space] + Join(rest[1..]);
        }
      }
    }
  }

  /** No piece contains the separator. */
  lemma {:induction false} SplitHasNoSpace(s: string)
    ensures NoSpaceIn(Split(s))
  {
    if s != [] {
      var rest := Split(s[1..]);
      SplitHasNoSpace(s[1..]);
      var r := Split(s);
      forall k | 0 <= k < |r| ensures Space !in r[k] {
        if k > 0 {
          if s[0] == Space { assert r[k] == rest[k - 1]; } else { assert r[k] == rest[k]; }
        } else if s[0] != Space {
          assert r[0] == [s[0]] + rest[0];
        }
      }
    }
  }

  /** Empty pieces are kept: there is exactly one more piece than spaces. */
  lemma {:induction false} SplitCount(s: string)
    ensures |Split(s)| == multiset(s)[Space] + 1
  {
    if s != [] {
      SplitCount(s[1..]);
      assert s == [s[0]] + s[1..];
      assert multiset(s) == multiset([s[0]]) + multiset(s[1..]);
    }
  }

  /** Splitting a text that starts with a space-free word `w`. */
  lemma {:induction false} SplitWordPrefix(w: string, s: string)
    requires Space !in w
    ensures Split(w + s) == [w + Split(s)[0]] + Split(s)[1..]
  {
    if w != [] {
      SplitWordPrefix(w[1..], s);
      assert (w + s)[1..] == w[1..] + s;
      assert (w + s)[0] == w[0];
      assert [w[0]] + (w[1..] + Split(s)[0]) == w + Split(s)[0];
    } else {
      assert w + s == s;
      assert w + Split(s)[0] == Split(s)[0];
      assert Split(s) == [Split(s)[0]] + Split(s)[1..];
    }
  }

  /** Joining space-free pieces and splitting again gives the pieces back. */
  lemma {:induction false} SplitJoin(ts: seq<string>)
    requires |ts| >= 1 && NoSpaceIn(ts)
    ensures Split(Join(ts)) == ts
  {
    if |ts| == 1 {
      SplitWordPrefix(ts[0], "");
      assert ts[0] + "" == ts[0];
      assert ts == [ts[0]];
    } else {
      var tail := Join(ts[1..]);
      assert NoSpaceIn(ts[1..]) by {
        forall k | 0 <= k < |ts[1..]| ensures Space !in ts[1..][k] { assert ts[1..][k] == ts[k + 1]; }
      }
      SplitJoin(ts[1..]);
      assert Join(ts) == ts[0] + ([Space] + tail);
      SplitWordPrefix(ts[0], [Space] + tail);
      assert ([Space] + tail)[1..] == tail;
      assert Split([Space] + tail) == [""] + ts[1..];
      assert ts[0] + "" == ts[0];
    }
  }
}
