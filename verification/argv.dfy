/**
 Reading a named option (`--name value`) from the process argument vector.
 */
module Argv {
  import opened Records

  /** `i` is the position of the last occurrence of `flag` in `argv`. */
  predicate LastOccurrence(argv: seq<string>, flag: string, i: nat) {
    && i < |argv|
    && argv[i] == flag
    && forall j :: i < j < |argv| ==> argv[j] != flag
  }

  /**
   The accumulator of the left fold over `argv`: starting from "no index",
   every element equal to `flag` at position i replaces it with i + 1. The
   recursion is on the prefix, so the last element is the last fold step.
   */
  function IndexAfterFlag(argv: seq<string>, flag: string): (r: Option<nat>)
    ensures r.Some? ==> 1 <= r.value <= |argv| && LastOccurrence(argv, flag, r.value - 1)
    ensures r.None? ==> forall j :: 0 <= j < |argv| ==> argv[j] != flag
  {
    if |argv| == 0 then None
    else
      var acc := IndexAfterFlag(argv[..|argv| - 1], flag);
      if argv[|argv| - 1] == flag then Some(|argv|) else acc
  }

  /**
   The value following the last `--param` in `argv`. It is absent when the
   flag never occurs and when its last occurrence is the final element
   (indexing one past the end yields `undefined`); an earlier occurrence that
   does have a successor is then not consulted.
   */
  function ReadArgv(argv: seq<string>, param: string): (r: Option<string>)
    ensures forall i: nat :: LastOccurrence(argv, "--" + param, i) && i + 1 < |argv| ==> r == Some(argv[i + 1])
    ensures r.None? <==>
              (forall j :: 0 <= j < |argv| ==> argv[j] != "--" + param)
              || (|argv| > 0 && argv[|argv| - 1] == "--" + param)
  {
    var index := IndexAfterFlag(argv, "--" + param);
    if index.Some? && index.value < |argv| then Some(argv[index.value]) else None
  }
}
