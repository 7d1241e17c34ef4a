/** Values that may be absent. */
module Wrappers {
  datatype Option<+T> = None | Some(value: T)
}

/** Sequences made of parts. */
module Sequences {
  lemma Associative<T>(a: seq<T>, b: seq<T>, c: seq<T>)
    ensures (a + b) + c == a + (b + c)
  {
  }

  lemma HeadAndRest<T>(s: seq<T>)
    requires s != []
    ensures s == [s[0]] + s[1..]
  {
  }

  lemma FrontCut<T>(a: seq<T>, b: seq<T>)
    ensures (a + b)[|a|..] == b && (a + b)[..|a|] == a
  {
  }

  /** The parts lie in `whole` one after the other, part i from starts[i] on, and fill it. */
  ghost predicate LiesInOrder<T>(whole: seq<T>, parts: seq<seq<T>>, starts: seq<nat>) {
    && |starts| == |parts| + 1 && starts[0] == 0 && starts[|parts|] == |whole|
    && forall i {:trigger parts[i]} :: 0 <= i < |parts| ==>
         && starts[i] + |parts[i]| == starts[i + 1] <= |whole|
         && whole[starts[i]..starts[i + 1]] == parts[i]
  }

  lemma MovedCut<T>(first: seq<T>, whole: seq<T>, from: nat, to: nat)
    requires from <= to <= |whole|
    ensures (first + whole)[|first| + from..|first| + to] == whole[from..to]
  {
  }

  lemma LiesFirst<T>(first: seq<T>, whole: seq<T>, parts: seq<seq<T>>, starts: seq<nat>) returns (more: seq<nat>)
    requires LiesInOrder(whole, parts, starts)
    ensures LiesInOrder(first + whole, [first] + parts, more)
  {
    more := [0] + seq(|starts|, i requires 0 <= i < |starts| => |first| + starts[i]);
    forall i {:trigger ([first] + parts)[i]} | 0 <= i < |parts| + 1
      ensures more[i] + |([first] + parts)[i]| == more[i + 1] <= |first + whole|
      ensures (first + whole)[more[i]..more[i + 1]] == ([first] + parts)[i]
    {
      if i == 0 {
        FrontCut(first, whole);
        assert more[1] == |first|;
      } else {
        assert starts[i - 1] + |parts[i - 1]| == starts[i];
        MovedCut(first, whole, starts[i - 1], starts[i]);
      }
    }
  }
}
