/** Command-line lookup: the value that follows a flag. */
module Cli {
  import opened Feed

  /** `args.index(arg)`: the first position of `arg`, `None` where Python raises `ValueError`. */
  function FirstIndex(args: seq<string>, arg: string): (r: Option<nat>)
    ensures r.None? <==> arg !in args
    ensures r.Some? ==> r.value < |args| && args[r.value] == arg
    ensures r.Some? ==> forall j :: 0 <= j < r.value ==> args[j] != arg
  {
    if |args| == 0 then None
    else if args[0] == arg then Some(0)
    else match FirstIndex(args[1..], arg)
      case None => None
      case Some(i) => Some(i + 1)
  }

  /**
   `argumentHandling`: the element after the first occurrence of `arg`;
   `None` when `arg` is absent or is the last element.
   */
  function ArgumentValue(arg: string, args: seq<string>): (r: Option<string>)
    ensures arg !in args ==> r.None?
    ensures forall i :: 0 <= i < |args| && args[i] == arg && (forall j :: 0 <= j < i ==> args[j] != arg) ==>
              r == if i + 1 < |args| then Some(args[i + 1]) else None
  {
    match FirstIndex(args, arg)
    case None => None
    case Some(index) => if index + 1 < |args| then Some(args[index + 1]) else None
  }

  /** A flag given twice: only its first value counts. */
  lemma FirstValueWins(arg: string, v: string, w: string, rest: seq<string>)
    ensures ArgumentValue(arg, [arg, v] + rest + [arg, w]) == Some(v)
  {
  }
}
