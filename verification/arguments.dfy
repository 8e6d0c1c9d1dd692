/** Command-line handling of the stream processor: looking up the value that
    follows a flag, and choosing the branch (and exit code) from the first
    flag, in a fixed priority order, that has a value. What each branch
    prints is not modelled. */
module Arguments {
  import opened Wrappers

  /** `key` does not occur before position `i`. */
  predicate AbsentBefore(args: seq<string>, key: string, i: int) {
    forall j :: 0 <= j < i && j < |args| ==> args[j] != key
  }

  /** The value of `key`: the argument right after its first occurrence, or
      none when the key does not occur or occurs first as the last argument. */
  function Lookup(args: seq<string>, key: string): (r: Option<string>)
    ensures r.None? <==> AbsentBefore(args, key, |args| - 1)
    ensures r.Some? ==> exists i ::
      && 0 <= i < |args| - 1
      && args[i] == key
      && args[i + 1] == r.value
      && AbsentBefore(args, key, i)
    decreases |args|
  {
    if |args| < 2 then None
    else if args[0] == key then Some(args[1])
    else Lookup(args[1..], key)
  }

  /** `ValueForKey`: scans `args` from the front and returns the argument
      after the first occurrence of `key` that has one. `args` is only read. */
  method ValueForKey(args: array<string>, key: string) returns (r: Option<string>)
    ensures r == Lookup(args[..], key)
    ensures r.Some? ==> r.value in args[1..]
  {
    for index := 0 to args.Length
      invariant Lookup(args[..], key) == Lookup(args[index..], key)
    {
      assert args[index..][1..] == args[index + 1..];
      if args[index] != key {
        continue;
      }
      var nextIndex := index + 1;
      if nextIndex < args.Length {
        return Some(args[nextIndex]);
      }
    }
    return None;
  }

  /** Appending one argument after a last argument that is not `key` cannot
      give `key` a value it did not already have. */
  lemma {:induction false} LookupIgnoresTrailing(args: seq<string>, key: string, x: string)
    requires |args| == 0 || args[|args| - 1] != key
    ensures Lookup(args + [x], key) == Lookup(args, key)
  {
    if |args| >= 2 && args[0] != key {
      assert (args + [x])[1..] == args[1..] + [x];
      LookupIgnoresTrailing(args[1..], key, x);
    }
  }

  /** The flags, highest priority first. */
  const Flags: seq<string> := ["--read-file", "--read-inline", "--nft", "--wallet", "--reset"]

  /** The branch the program takes, with the value it bound. */
  datatype Branch =
    | ReadFile(file: string)
    | ReadInline(inline: string)
    | Nft(nftId: string)
    | Wallet(address: string)
    | Reset(value: string)
    | Usage

  /** Position in `Flags` of the flag that selects a branch. */
  function Rank(b: Branch): nat
    requires !b.Usage?
  {
    match b
    case ReadFile(_) => 0
    case ReadInline(_) => 1
    case Nft(_) => 2
    case Wallet(_) => 3
    case Reset(_) => 4
  }

  /** The value bound by a branch. */
  function Payload(b: Branch): string
    requires !b.Usage?
  {
    match b
    case ReadFile(v) => v
    case ReadInline(v) => v
    case Nft(v) => v
    case Wallet(v) => v
    case Reset(v) => v
  }

  /** The branch `Main` selects: the first flag in priority order that has a
      value, or the usage branch when none has. */
  function Dispatch(args: seq<string>): (b: Branch)
    ensures b.Usage? <==> forall k :: 0 <= k < |Flags| ==> Lookup(args, Flags[k]).None?
    ensures !b.Usage? ==>
      && Rank(b) < |Flags|
      && Lookup(args, Flags[Rank(b)]) == Some(Payload(b))
      && forall j :: 0 <= j < Rank(b) ==> Lookup(args, Flags[j]).None?
  {
    var file := Lookup(args, Flags[0]);
    var inline := Lookup(args, Flags[1]);
    var nftId := Lookup(args, Flags[2]);
    var address := Lookup(args, Flags[3]);
    var reset := Lookup(args, Flags[4]);
    if file.Some? then ReadFile(file.value)
    else if inline.Some? then ReadInline(inline.value)
    else if nftId.Some? then Nft(nftId.value)
    else if address.Some? then Wallet(address.value)
    else if reset.Some? then Reset(reset.value)
    else Usage
  }

  /** The exit code of a branch: 0 for every flag branch, 1 for usage. */
  function ExitCode(b: Branch): int {
    if b.Usage? then 1 else 0
  }

  /** `Main`: tries the flags in priority order, stopping at the first that
      has a value, and returns the branch taken with its exit code. */
  method Run(args: array<string>) returns (b: Branch, code: int)
    ensures b == Dispatch(args[..])
    ensures code == ExitCode(b)
    ensures code == 0 <==> exists k :: 0 <= k < |Flags| && Lookup(args[..], Flags[k]).Some?
    ensures code == 1 <==> forall k :: 0 <= k < |Flags| ==> Lookup(args[..], Flags[k]).None?
  {
    var file := ValueForKey(args, Flags[0]);
    if file.Some? {
      return ReadFile(file.value), 0;
    }
    var inline := ValueForKey(args, Flags[1]);
    if inline.Some? {
      return ReadInline(inline.value), 0;
    }
    var nftId := ValueForKey(args, Flags[2]);
    if nftId.Some? {
      return Nft(nftId.value), 0;
    }
    var address := ValueForKey(args, Flags[3]);
    if address.Some? {
      return Wallet(address.value), 0;
    }
    var reset := ValueForKey(args, Flags[4]);
    if reset.Some? {
      return Reset(reset.value), 0;
    }
    return Usage, 1;
  }

  /** A flag given only as the last argument counts as absent: when no other
      argument is a flag, the program falls through to usage and exit code 1. */
  lemma TrailingFlagFallsThrough(args: seq<string>, flag: string)
    requires flag in Flags
    requires forall i :: 0 <= i < |args| ==> args[i] !in Flags
    ensures Dispatch(args + [flag]) == Usage
    ensures ExitCode(Dispatch(args + [flag])) == 1
  {
  }

  /** A trailing `--reset` on its own selects the usage branch. */
  lemma TrailingResetAlone()
    ensures Dispatch(["--reset"]) == Usage
  {
    TrailingFlagFallsThrough([], "--reset");
  }
}
