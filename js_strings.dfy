/**
  JavaScript's `String.prototype.split` and `Array.prototype.join` for a
  one-character separator, over `seq<char>`.

  `s.split(c)` cuts `s` at every occurrence of `c` and always returns at least
  one piece: `"".split(c)` is `[""]`, and a separator at either end yields an
  empty piece there. `parts.join(c)` puts `c` between consecutive pieces and
  gives `""` for an empty array.
 */
module JsStrings {

  /** Position of the first `c` in `s`, or `|s|` when `s` has none. */
  function FirstIndex(s: string, c: char): (i: nat)
    ensures i <= |s|
    ensures i < |s| ==> s[i] == c
    ensures forall k :: 0 <= k < i ==> s[k] != c
  {
    if |s| == 0 then 0
    else if s[0] == c then 0
    else 1 + FirstIndex(s[1..], c)
  }

  /** `s.split(c)`. */
  function Split(s: string, c: char): (parts: seq<string>)
    ensures |parts| >= 1
    ensures forall k :: 0 <= k < |parts| ==> c !in parts[k]
    decreases |s|
  {
    var i := FirstIndex(s, c);
    if i == |s| then
      [s]
    else
      [s[..i]] + Split(s[i + 1..], c)
  }

  /**
    There is more than one piece exactly when `s` contains `c`, and the first
    piece is the longest prefix of `s` free of `c`.
   */
  lemma SplitHead(s: string, c: char)
    ensures |Split(s, c)| == 1 <==> c !in s
    ensures Split(s, c)[0] <= s
    ensures |Split(s, c)[0]| < |s| ==> s[|Split(s, c)[0]|] == c
  {
  }

  /** `parts.join(c)`. */
  function Join(parts: seq<string>, c: char): string
  {
    if |parts| == 0 then ""
    else if |parts| == 1 then parts[0]
    else parts[0] + [c] + Join(parts[1..], c)
  }

  /** Joining the pieces of a split gives back the original text. */
  lemma {:induction false} JoinSplit(s: string, c: char)
    ensures Join(Split(s, c), c) == s
    decreases |s|
  {
    var i := FirstIndex(s, c);
    if i < |s| {
      var rest := s[i + 1..];
      var parts := Split(s, c);
      var tail := Split(rest, c);
      assert parts == [s[..i]] + tail;
      assert parts[0] == s[..i] && parts[1..] == tail;
      JoinSplit(rest, c);
      assert Join(parts, c) == s[..i] + [c] + Join(tail, c);
      assert s == s[..i] + [c] + rest;
    }
  }

  /** The first `c` of `p + [c] + t` is the one after `p` when `p` has none. */
  lemma {:induction false} FirstIndexAfter(p: string, c: char, t: string)
    requires c !in p
    ensures FirstIndex(p + [c] + t, c) == |p|
  {
    var s := p + [c] + t;
    assert forall k :: 0 <= k < |p| ==> s[k] == p[k];
    assert s[|p|] == c;
  }

  /** Splitting a join of separator-free pieces gives back the pieces. */
  lemma {:induction false} SplitJoin(parts: seq<string>, c: char)
    requires |parts| >= 1
    requires forall k :: 0 <= k < |parts| ==> c !in parts[k]
    ensures Split(Join(parts, c), c) == parts
  {
    if |parts| > 1 {
      var head, tail := parts[0], parts[1..];
      var rest := Join(tail, c);
      var s := head + [c] + rest;
      assert Join(parts, c) == s;
      FirstIndexAfter(head, c, rest);
      assert s[..|head|] == head;
      assert s[|head| + 1..] == rest;
      assert Split(s, c) == [head] + Split(rest, c);
      SplitJoin(tail, c);
      assert parts == [head] + tail;
    }
  }

  /** Joining one more piece appends the separator and that piece. */
  lemma {:induction false} JoinSnoc(parts: seq<string>, p: string, c: char)
    requires |parts| >= 1
    ensures Join(parts + [p], c) == Join(parts, c) + [c] + p
  {
    if |parts| > 1 {
      assert (parts + [p])[1..] == parts[1..] + [p];
      JoinSnoc(parts[1..], p, c);
    } else {
      assert (parts + [p])[1..] == [p];
    }
  }

  /** Text followed by a separator and a separator-free piece splits into one more piece. */
  lemma SplitSnoc(s: string, p: string, c: char)
    requires c !in p
    ensures Split(s + [c] + p, c) == Split(s, c) + [p]
  {
    var parts := Split(s, c);
    JoinSplit(s, c);
    JoinSnoc(parts, p, c);
    SplitJoin(parts + [p], c);
  }
}
