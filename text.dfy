/**
 * The string handling the `statusmod` command relies on: JavaScript's
 * `String.prototype.split(' ')`, `Array.prototype.join(' ')`, and the
 * decimal rendering a template literal gives a non-negative integer.
 */
module Text {

  /** The one separator the command line is split on. */
  const Space: char := ' '

  /**
   * `s.split(' ')`: the pieces of `s` between consecutive spaces. Empty
   * pieces (from doubled, leading or trailing spaces) are kept, and the
   * empty string splits into one empty piece.
   */
  function Split(s: string): (r: seq<string>)
    ensures |r| >= 1
    ensures forall k :: 0 <= k < |r| ==> Space !in r[k]
    decreases |s|
  {
    if |s| == 0 then [""]
    else
      var rest := Split(s[1..]);
      if s[0] == Space then [""] + rest
      else [[s[0]] + rest[0]] + rest[1..]
  }

  /** The total length of the pieces. */
  function TotalLength(ts: seq<string>): nat
  {
    if |ts| == 0 then 0 else |ts[0]| + TotalLength(ts[1..])
  }

  /** `ts.join(' ')`: the pieces with one space between neighbours. */
  function Join(ts: seq<string>): (r: string)
    ensures |ts| > 0 ==> |r| == TotalLength(ts) + |ts| - 1
    ensures |ts| > 0 ==> |ts[0]| <= |r| && r[..|ts[0]|] == ts[0]
    ensures |ts| > 1 ==> r[|ts[0]|] == Space
  {
    if |ts| == 0 then ""
    else if |ts| == 1 then ts[0]
    else ts[0] + [Space] + Join(ts[1..])
  }

  /** True when no piece contains the separator, as every piece of a split. */
  predicate SpaceFree(ts: seq<string>)
  {
    forall k :: 0 <= k < |ts| ==> Space !in ts[k]
  }

  /**
   * What follows the `k`-th space of `s` (all of `s` when `k` is 0, the
   * empty string when `s` has fewer than `k` spaces). Defined independently
   * of Split and Join.
   */
  function AfterSeparators(s: string, k: nat): (r: string)
    ensures |r| <= |s| && r == s[|s| - |r|..]
    decreases |s|
  {
    if k == 0 then s
    else if |s| == 0 then ""
    else if s[0] == Space then AfterSeparators(s[1..], k - 1)
    else AfterSeparators(s[1..], k)
  }

  /** Splitting then joining gives back the original string. */
  lemma {:induction false} JoinSplit(s: string)
    ensures Join(Split(s)) == s
    decreases |s|
  {
    if |s| > 0 {
      var rest := Split(s[1..]);
      JoinSplit(s[1..]);
      if s[0] == Space {
        assert ([""] + rest)[1..] == rest;
      } else if |rest| == 1 {
        assert Join(Split(s)) == [s[0]] + rest[0];
      } else {
        var r := [[s[0]] + rest[0]] + rest[1..];
        assert r[1..] == rest[1..];
        assert Join(rest) == rest[0] + [Space] + Join(rest[1..]);
        assert Join(r) == [s[0]] + rest[0] + [Space] + Join(rest[1..]);
        assert s == [s[0]] + s[1..];
      }
    }
  }

  /** A space-free prefix glues onto the first piece of what follows it. */
  lemma {:induction false} SplitAfterWord(t: string, s: string)
    requires Space !in t
    ensures Split(t + s) == [t + Split(s)[0]] + Split(s)[1..]
    decreases |t|
  {
    if |t| > 0 {
      assert (t + s)[1..] == t[1..] + s;
      assert t == [t[0]] + t[1..];
      SplitAfterWord(t[1..], s);
      assert [t[0]] + (t[1..] + Split(s)[0]) == t + Split(s)[0];
    } else {
      assert t + s == s;
      assert t + Split(s)[0] == Split(s)[0];
      assert Split(s) == [Split(s)[0]] + Split(s)[1..];
    }
  }

  /** Joining space-free pieces then splitting gives back the pieces. */
  lemma {:induction false} SplitJoin(ts: seq<string>)
    requires |ts| >= 1 && SpaceFree(ts)
    ensures Split(Join(ts)) == ts
  {
    if |ts| == 1 {
      SplitAfterWord(ts[0], "");
      assert ts[0] + "" == ts[0];
    } else {
      var tail := ts[1..];
      SplitJoin(tail);
      var j := [Space] + Join(tail);
      assert Split(j) == [""] + Split(Join(tail));
      assert Join(ts) == ts[0] + j;
      SplitAfterWord(ts[0], j);
      assert ts[0] + "" == ts[0];
      assert ts == [ts[0]] + tail;
    }
  }

  /**
   * Joining the pieces of a split from piece `k` on gives exactly the text
   * after the `k`-th space.
   */
  lemma {:induction false} JoinDrop(s: string, k: nat)
    requires k < |Split(s)|
    ensures Join(Split(s)[k..]) == AfterSeparators(s, k)
    decreases |s|
  {
    if k == 0 {
      JoinSplit(s);
      assert Split(s)[0..] == Split(s);
    } else {
      var rest := Split(s[1..]);
      if s[0] == Space {
        assert Split(s)[k..] == rest[k - 1..];
        JoinDrop(s[1..], k - 1);
      } else {
        assert Split(s)[k..] == rest[k..];
        JoinDrop(s[1..], k);
      }
    }
  }

  /** The digit character for a value below ten. */
  function DigitChar(d: nat): (c: char)
    requires d < 10
    ensures '0' <= c <= '9' && c as int - '0' as int == d
  {
    (d + '0' as int) as char
  }

  /** The decimal rendering of a non-negative integer, without leading zeros. */
  function DecimalString(k: nat): (r: string)
    ensures |r| >= 1
    ensures forall j :: 0 <= j < |r| ==> '0' <= r[j] <= '9'
    ensures r[0] == '0' ==> k == 0 && r == "0"
  {
    if k < 10 then [DigitChar(k)] else DecimalString(k / 10) + [DigitChar(k % 10)]
  }
}
