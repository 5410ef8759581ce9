/**
 * Parsing of the command line (gtest.cc): recognised flags are removed from the argument vector
 * in place, and the NULL at its end moves up. Which arguments are recognised, and which ask for
 * help, are parameters.
 */
module CommandLine {
  import opened Wrappers
  import opened Sequences

  /** An element of the argument vector: a string, or NULL. */
  type Arg = Option<string>

  predicate Recognised(isFlag: string -> bool, arg: Arg) {
    arg.Some? && isFlag(arg.value)
  }

  function Kept(isFlag: string -> bool, args: seq<Arg>): seq<Arg> {
    Filter(arg => !Recognised(isFlag, arg), args)
  }

  function Removed(isFlag: string -> bool, args: seq<Arg>): seq<Arg> {
    Filter(arg => Recognised(isFlag, arg), args)
  }

  /** An argument that stays and triggers the display of help. */
  predicate AsksForHelp(isHelp: string -> bool, args: seq<Arg>) {
    exists i :: 0 <= i < |args| && args[i].Some? && isHelp(args[i].value)
  }

  /** Shifts the remainder of the vector, with its trailing NULL, left by one. */
  method ShiftLeft(argv: array<Arg>, i: nat, argc: nat)
    requires i < argc < argv.Length
    modifies argv
    ensures argv[..] == old(argv[..i] + argv[i + 1..argc + 1] + argv[argc..])
  {
    var j := i;
    while j != argc
      invariant i <= j <= argc
      invariant forall k :: i <= k < j ==> argv[k] == old(argv[k + 1])
      invariant forall k :: 0 <= k < argv.Length && !(i <= k < j) ==> argv[k] == old(argv[k])
    {
      argv[j] := argv[j + 1];
      j := j + 1;
    }
  }

  lemma KeptUnfolds(isFlag: string -> bool, args: seq<Arg>)
    requires args != []
    ensures Kept(isFlag, args) == (if Recognised(isFlag, args[0]) then [] else [args[0]]) + Kept(isFlag, args[1..])
    ensures Removed(isFlag, args) == (if Recognised(isFlag, args[0]) then [args[0]] else []) + Removed(isFlag, args[1..])
  {
  }

  /** The remaining vector after the arguments before `i` have been kept. */
  ghost predicate Compacting(argv: seq<Arg>, args: seq<Arg>, i: nat, argc: nat, argc0: nat, isFlag: string -> bool,
                             removed: seq<Arg>)
  {
    && 1 <= i <= argc <= argc0 < |argv| == |args|
    && argv[0] == args[0]
    && argv[1..i] + Kept(isFlag, argv[i..argc]) == Kept(isFlag, args[1..argc0])
    && removed + Removed(isFlag, argv[i..argc]) == Removed(isFlag, args[1..argc0])
    && (forall k :: 0 <= k < argc ==> argv[k].Some?)
    && (forall k :: argc <= k <= argc0 ==> argv[k] == None)
    && argv[argc0 + 1..] == args[argc0 + 1..]
  }

  lemma KeepOne(argv: seq<Arg>, args: seq<Arg>, i: nat, argc: nat, argc0: nat, isFlag: string -> bool, removed: seq<Arg>)
    requires Compacting(argv, args, i, argc, argc0, isFlag, removed) && i < argc && !Recognised(isFlag, argv[i])
    ensures Compacting(argv, args, i + 1, argc, argc0, isFlag, removed)
  {
    KeptUnfolds(isFlag, argv[i..argc]);
    assert argv[i..argc][1..] == argv[i + 1..argc];
    assert argv[1..i + 1] == argv[1..i] + [argv[i]];
    assert argv[1..i] + ([argv[i]] + Kept(isFlag, argv[i + 1..argc])) == argv[1..i + 1] + Kept(isFlag, argv[i + 1..argc]);
    assert removed + ([] + Removed(isFlag, argv[i + 1..argc])) == removed + Removed(isFlag, argv[i + 1..argc]);
  }

  lemma RemoveOne(argv: seq<Arg>, args: seq<Arg>, i: nat, argc: nat, argc0: nat, isFlag: string -> bool,
                  removed: seq<Arg>, argv': seq<Arg>)
    requires Compacting(argv, args, i, argc, argc0, isFlag, removed) && i < argc && Recognised(isFlag, argv[i])
    requires argv' == argv[..i] + argv[i + 1..argc + 1] + argv[argc..]
    ensures Compacting(argv', args, i, argc - 1, argc0, isFlag, removed + [argv[i]])
  {
    KeptUnfolds(isFlag, argv[i..argc]);
    ShiftedSlices(argv, i, argc, argc0, argv');
    assert argv[i..argc][1..] == argv[i + 1..argc];
    assert argv[1..i] + ([] + Kept(isFlag, argv[i + 1..argc])) == argv[1..i] + Kept(isFlag, argv[i + 1..argc]);
    assert removed + ([argv[i]] + Removed(isFlag, argv[i + 1..argc])) == removed + [argv[i]] + Removed(isFlag, argv[i + 1..argc]);
  }

  lemma ShiftedSlices(argv: seq<Arg>, i: nat, argc: nat, argc0: nat, argv': seq<Arg>)
    requires 1 <= i < argc <= argc0 < |argv|
    requires argv' == argv[..i] + argv[i + 1..argc + 1] + argv[argc..]
    ensures |argv'| == |argv| && argv'[1..i] == argv[1..i] && argv'[i..argc - 1] == argv[i + 1..argc]
    ensures argv'[argc0 + 1..] == argv[argc0 + 1..] && argv'[0] == argv[0]
    ensures forall k :: argc <= k <= argc0 ==> argv'[k] == argv[k]
    ensures forall k :: i <= k < argc ==> argv'[k] == argv[k + 1]
  {
    var shifted := argv[i + 1..argc + 1];
    assert argv'[i..argc - 1] == shifted[..argc - 1 - i] == argv[i + 1..argc];
  }

  method RemoveFlag(argv: array<Arg>, i: nat, argc: nat, ghost args: seq<Arg>, ghost argc0: nat,
                    ghost isFlag: string -> bool, ghost removed: seq<Arg>, ghost isHelp: string -> bool, ghost helpFlag: bool)
    requires Parsing(argv[..], args, i, argc, argc0, isFlag, removed, isHelp, helpFlag)
    requires i < argc && Recognised(isFlag, argv[i])
    modifies argv
    ensures Parsing(argv[..], args, i, argc - 1, argc0, isFlag, removed + [old(argv[i])], isHelp, helpFlag)
  {
    ghost var before := argv[..];
    ShiftLeft(argv, i, argc);
    RemoveOne(before, args, i, argc, argc0, isFlag, removed, argv[..]);
    assert argv[1..i] == before[1..i];
  }

  /**
   * Leaves the program name followed by the unrecognised arguments, in order, then NULLs up to the
   * old end; nothing beyond that changes.
   */
  method ParseGoogleTestFlagsOnly(argc0: nat, argv: array<Arg>, isFlag: string -> bool, isHelp: string -> bool)
      returns (argc: nat, helpFlag: bool, removed: seq<Arg>)
    requires argc0 < argv.Length && argv[argc0] == None
    requires forall k :: 0 <= k < argc0 ==> argv[k].Some?
    modifies argv
    ensures argc0 == 0 ==> argc == 0 && argv[..] == old(argv[..]) && !helpFlag
    ensures argc0 > 0 ==> Parsed(old(argv[..]), argc0, isFlag, isHelp, argv[..], argc, helpFlag, removed)
  {
    argc, helpFlag, removed := argc0, false, [];
    if argc0 == 0 {
      return;
    }
    ghost var args := argv[..];
    ParsingStarts(args, argc0, isFlag, isHelp);
    var i := 1;
    while i < argc
      invariant Parsing(argv[..], args, i, argc, argc0, isFlag, removed, isHelp, helpFlag)
      decreases argc - i
    {
      var arg := argv[i].value;
      if isFlag(arg) {
        ghost var before := removed;
        removed := removed + [argv[i]];
        RemoveFlag(argv, i, argc, args, argc0, isFlag, before, isHelp, helpFlag);
        argc := argc - 1;
        i := i - 1;
      } else {
        ghost var before := helpFlag;
        if isHelp(arg) {
          helpFlag := true;
        }
        KeepNext(argv[..], args, i, argc, argc0, isFlag, removed, isHelp, before, helpFlag);
      }
      i := i + 1;
    }
    ParsingEnds(argv[..], args, i, argc0, isFlag, removed, isHelp, helpFlag);
  }

  lemma ParsingEnds(argv: seq<Arg>, args: seq<Arg>, argc: nat, argc0: nat, isFlag: string -> bool,
                    removed: seq<Arg>, isHelp: string -> bool, helpFlag: bool)
    requires Parsing(argv, args, argc, argc, argc0, isFlag, removed, isHelp, helpFlag)
    ensures Parsed(args, argc0, isFlag, isHelp, argv, argc, helpFlag, removed)
  {
    Compacted(argv, args, argc, argc0, isFlag, removed);
  }

  /** The result: the program name, the arguments kept, NULLs up to the old end, and what was there beyond. */
  ghost predicate Parsed(args: seq<Arg>, argc0: nat, isFlag: string -> bool, isHelp: string -> bool,
                         argv: seq<Arg>, argc: nat, helpFlag: bool, removed: seq<Arg>)
    requires 1 <= argc0 < |args|
  {
    var kept := Kept(isFlag, args[1..argc0]);
    && argc == 1 + |kept| && argc <= argc0
    && argv == [args[0]] + kept + seq(argc0 + 1 - argc, _ => None) + args[argc0 + 1..]
    && (helpFlag <==> AsksForHelp(isHelp, kept))
    && removed == Removed(isFlag, args[1..argc0])
  }

  lemma ParsingStarts(args: seq<Arg>, argc0: nat, isFlag: string -> bool, isHelp: string -> bool)
    requires 1 <= argc0 < |args| && args[argc0] == None && forall k :: 0 <= k < argc0 ==> args[k].Some?
    ensures Parsing(args, args, 1, argc0, argc0, isFlag, [], isHelp, false)
  {
    assert args[1..1] == [];
  }

  /** What the loop has done when it looks at argument `i`. */
  ghost predicate Parsing(argv: seq<Arg>, args: seq<Arg>, i: nat, argc: nat, argc0: nat, isFlag: string -> bool,
                          removed: seq<Arg>, isHelp: string -> bool, helpFlag: bool)
  {
    Compacting(argv, args, i, argc, argc0, isFlag, removed) && (helpFlag <==> AsksForHelp(isHelp, argv[1..i]))
  }

  lemma KeepNext(argv: seq<Arg>, args: seq<Arg>, i: nat, argc: nat, argc0: nat, isFlag: string -> bool,
                 removed: seq<Arg>, isHelp: string -> bool, helpFlag: bool, helpFlag': bool)
    requires Parsing(argv, args, i, argc, argc0, isFlag, removed, isHelp, helpFlag) && i < argc
    requires !Recognised(isFlag, argv[i]) && (helpFlag' <==> helpFlag || isHelp(argv[i].value))
    ensures Parsing(argv, args, i + 1, argc, argc0, isFlag, removed, isHelp, helpFlag')
  {
    KeepOne(argv, args, i, argc, argc0, isFlag, removed);
    HelpExtends(isHelp, argv, i);
  }

  lemma HelpExtends(isHelp: string -> bool, argv: seq<Arg>, i: nat)
    requires 1 <= i < |argv|
    ensures AsksForHelp(isHelp, argv[1..i + 1]) <==>
      AsksForHelp(isHelp, argv[1..i]) || (argv[i].Some? && isHelp(argv[i].value))
  {
    var before, after := argv[1..i], argv[1..i + 1];
    assert after == before + [argv[i]];
    if AsksForHelp(isHelp, before) {
      var k :| 0 <= k < |before| && before[k].Some? && isHelp(before[k].value);
      assert after[k] == before[k];
    }
    assert after[i - 1] == argv[i];
  }

  lemma Compacted(argv: seq<Arg>, args: seq<Arg>, argc: nat, argc0: nat, isFlag: string -> bool, removed: seq<Arg>)
    requires Compacting(argv, args, argc, argc, argc0, isFlag, removed)
    ensures argv[1..argc] == Kept(isFlag, args[1..argc0]) && removed == Removed(isFlag, args[1..argc0])
    ensures argv == [args[0]] + Kept(isFlag, args[1..argc0]) + seq(argc0 + 1 - argc, _ => None) + args[argc0 + 1..]
  {
    assert argv[argc..argc] == [];
    NullTail(argv, argc, argc0 + 1);
    FourSlices(argv, argc, argc0 + 1);
  }

  lemma NullTail(argv: seq<Arg>, from: nat, to: nat)
    requires from <= to <= |argv| && forall k :: from <= k < to ==> argv[k] == None
    ensures argv[from..to] == seq(to - from, _ => None)
  {
  }

  lemma FourSlices(argv: seq<Arg>, from: nat, to: nat)
    requires 1 <= from <= to <= |argv|
    ensures argv == [argv[0]] + argv[1..from] + argv[from..to] + argv[to..]
  {
  }

  /** A second pass finds nothing left to remove, and keeps every argument in place. */
  lemma SecondPassChangesNothing(isFlag: string -> bool, args: seq<Arg>)
    ensures Kept(isFlag, Kept(isFlag, args)) == Kept(isFlag, args)
    ensures Removed(isFlag, Kept(isFlag, args)) == []
  {
    var kept := Kept(isFlag, args);
    FilterOfAll(arg => !Recognised(isFlag, arg), kept);
    FilterOfNone(arg => Recognised(isFlag, arg), kept);
  }

  /** No argument is lost, duplicated or made up. */
  lemma ArgumentsAreConserved(isFlag: string -> bool, args: seq<Arg>)
    ensures multiset(Kept(isFlag, args)) + multiset(Removed(isFlag, args)) == multiset(args)
  {
    FilterSharesOut(arg => !Recognised(isFlag, arg), arg => Recognised(isFlag, arg), args);
  }

  /** The arguments kept are those that are no flags, at whatever positions, in their order. */
  lemma KeptAreNoFlags(isFlag: string -> bool, args: seq<Arg>) returns (at: seq<nat>)
    ensures Positions((arg: Arg) => arg == None || !isFlag(arg.value), args, at)
    ensures |at| == |Kept(isFlag, args)| && forall j :: 0 <= j < |at| ==> args[at[j]] == Kept(isFlag, args)[j]
  {
    at := FilterPositions(arg => !Recognised(isFlag, arg), args);
  }
}
