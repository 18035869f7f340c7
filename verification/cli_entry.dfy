/** The `run` action of the CLI entry point: everything after the first "--" is the command. */
module CliEntry {
  import opened Wrappers

  const Separator := "--"

  /** Position of the first element equal to `x` (`indexOf`). */
  function IndexOfElem(xs: seq<string>, x: string): (r: Option<nat>)
    ensures r.Some? ==> r.value < |xs| && xs[r.value] == x && x !in xs[..r.value]
    ensures r.None? <==> x !in xs
  {
    if |xs| == 0 then None
    else if xs[0] == x then Some(0)
    else match IndexOfElem(xs[1..], x)
      case None => None
      case Some(k) =>
        assert xs[..k + 1] == [xs[0]] + xs[1..][..k];
        Some(k + 1)
  }

  /** The command arguments, or the usage error (exit status 1) when there is no "--". */
  function CommandArgs(argv: seq<string>): (r: Result<seq<string>, int>)
    ensures r.Failure? <==> Separator !in argv
    ensures r.Failure? ==> r.error == 1
    ensures r.Success? ==> exists i :: 0 <= i < |argv| && argv[i] == Separator && Separator !in argv[..i]
                                       && r.value == argv[i + 1..]
  {
    match IndexOfElem(argv, Separator)
    case None => Failure(1)
    case Some(i) => Success(argv[i + 1..])
  }

  // ---- Properties ----

  /** The arguments split at the first "--" put back together give the whole argv. */
  lemma SplitReassembles(argv: seq<string>)
    requires Separator in argv
    ensures exists pre :: Separator !in pre && argv == pre + [Separator] + CommandArgs(argv).value
  {
    var i := IndexOfElem(argv, Separator).value;
    assert argv == argv[..i] + [Separator] + argv[i + 1..];
  }

  /** Later separators belong to the command. */
  lemma LaterSeparatorsKept()
    ensures CommandArgs(["bun", "picovault", "run", "--", "a", "--", "b"]) == Success(["a", "--", "b"])
  {
    var argv := ["bun", "picovault", "run", "--", "a", "--", "b"];
    assert argv[0] != Separator && argv[1] != Separator && argv[2] != Separator;
    assert IndexOfElem(argv, Separator) == Some(3);
  }
}
