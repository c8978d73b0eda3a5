/** Splitting text at a character, as the two parsers of this model do it. */
module Text {

  /** The pieces of `s` between the occurrences of `c`; always at least one. */
  function Split(s: string, c: char): (pieces: seq<string>)
    ensures pieces != []
  {
    if s == [] then [""]
    else
      var rest := Split(s[1..], c);
      if s[0] == c then [""] + rest else [[s[0]] + rest[0]] + rest[1..]
  }

  function Join(pieces: seq<string>, c: char): string {
    if pieces == [] then ""
    else if |pieces| == 1 then pieces[0]
    else pieces[0] + [c] + Join(pieces[1..], c)
  }

  lemma {:induction false} SplitWhole(s: string, c: char)
    requires c !in s
    ensures Split(s, c) == [s]
  {
    if s == [] {
      assert Split(s, c) == [""];
    } else {
      SplitWhole(s[1..], c);
      assert [s[0]] + s[1..] == s && s[0] in s;
    }
  }

  lemma {:induction false} SplitAt(left: string, c: char, right: string)
    ensures Split(left + [c] + right, c) == Split(left, c) + Split(right, c)
  {
    var s := left + [c] + right;
    if left == [] {
      assert s[1..] == right;
    } else {
      assert s[1..] == left[1..] + [c] + right;
      SplitAt(left[1..], c, right);
    }
  }

  lemma {:induction false} SplitJoin(pieces: seq<string>, c: char)
    requires pieces != [] && forall p <- pieces :: c !in p
    ensures Split(Join(pieces, c), c) == pieces
  {
    SplitWhole(pieces[0], c);
    if |pieces| > 1 {
      SplitAt(pieces[0], c, Join(pieces[1..], c));
      SplitJoin(pieces[1..], c);
      assert pieces == [pieces[0]] + pieces[1..];
    }
  }

  lemma {:induction false} PiecesAreFree(s: string, c: char)
    ensures forall p <- Split(s, c) :: c !in p
  {
    if s == [] {
      assert Split(s, c) == [""];
    } else {
      PiecesAreFree(s[1..], c);
      var rest := Split(s[1..], c);
      forall p | p in Split(s, c) ensures c !in p {
        assert p in rest || (s[0] != c && p == [s[0]] + rest[0]) || p == "";
      }
    }
  }
}
