/** Taking qualified names apart again. */
module Segments {
  import opened Paths

  /** The segments of a qualified name, in order. */
  function Split(text: string): seq<string> {
    var i := Colons(text, 0);
    if i + 2 <= |text| then [text[..i]] + Split(text[i + 2..]) else [text]
  }

  /** Where the first two colons in a row stand from `i` on, or the end. */
  function Colons(text: string, i: nat): (j: nat)
    requires i <= |text|
    ensures i <= j <= |text|
    decreases |text| - i
  {
    if i + 2 <= |text| && text[i..i + 2] == "::" then i
    else if i < |text| then Colons(text, i + 1)
    else i
  }

  /** No colon stands before the end of a segment, and two follow it unless it is the last one. */
  lemma {:induction false} ColonsAfter(text: string, i: nat, n: nat)
    requires i <= n <= |text| && ':' !in text[i..n]
    requires n == |text| || (n + 2 <= |text| && text[n..n + 2] == "::")
    ensures Colons(text, i) == n
    decreases n - i
  {
    if i < n {
      assert text[i] == text[i..n][0];
      if i + 2 <= |text| {
        assert text[i..i + 2][0] != "::"[0];
      }
      assert text[i + 1..n] == text[i..n][1..];
      ColonsAfter(text, i + 1, n);
    }
  }

  /** Segments without a colon are recovered from the joined name. */
  lemma {:induction false} SplitJoin(segments: seq<string>)
    requires segments != [] && forall k :: 0 <= k < |segments| ==> ':' !in segments[k]
    ensures Split(Join(segments)) == segments
  {
    var text, n := Join(segments), |segments[0]|;
    assert text[0..n] == segments[0];
    if |segments| == 1 {
      ColonsAfter(text, 0, n);
    } else {
      assert text[n..n + 2] == "::" && text[n + 2..] == Join(segments[1..]);
      ColonsAfter(text, 0, n);
      SplitJoin(segments[1..]);
      assert text[..n] == segments[0];
    }
  }
}
