/** Qualified names as the host prints them. */
module Paths {

  function Join(segments: seq<string>): string {
    if segments == [] then ""
    else if |segments| == 1 then segments[0]
    else segments[0] + "::" + Join(segments[1..])
  }

  lemma JoinOne(x: string)
    ensures Join([x]) == x
  {
  }

  /** The segments stand in the joined name in their order, two colons between them. */
  lemma {:induction false} JoinAppend(a: seq<string>, b: seq<string>)
    requires a != [] && b != []
    ensures Join(a + b) == Join(a) + "::" + Join(b)
  {
    if |a| == 1 {
      assert (a + b)[1..] == b;
    } else {
      assert (a + b)[1..] == a[1..] + b;
      JoinAppend(a[1..], b);
    }
  }
}
