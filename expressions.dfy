/** Commands and expressions (src/expression.c): two fixed-capacity stacks.
    A command holds argument strings, an expression holds commands plus the
    background flag. A push on a full stack and a pop on an empty one fail
    with status -1 and change nothing. */
module Expressions {
  import opened Wrappers

  const CommandMaxArgv := 513
  const ExpressionMaxCmds := 513

  /** command_t: `argv` is the fixed array of argument slots, `None` a NULL slot.
      `Args` is the argument vector the slots hold, program name first. */
  class Command {
    var numArgs: int
    const maxArgs: int
    const argv: array<Option<string>>
    ghost var Args: seq<string>

    /** The capacity is COMMAND_MAX_ARGV; the slots below the count hold the
        arguments, the slots above it are NULL. */
    ghost predicate Valid()
      reads this, argv
    {
      && maxArgs == argv.Length == CommandMaxArgv
      && numArgs == |Args| <= maxArgs
      && (forall i :: 0 <= i < numArgs ==> argv[i] == Some(Args[i]))
      && (forall i :: numArgs <= i < maxArgs ==> argv[i] == None)
    }

    /** command_create: no arguments, capacity COMMAND_MAX_ARGV, every slot NULL. */
    constructor ()
      ensures Valid() && fresh(argv)
      ensures numArgs == 0 && Args == []
    {
      var slots := new Option<string>[CommandMaxArgv];
      var index := 0;
      while index < slots.Length
        invariant 0 <= index <= slots.Length
        invariant forall i :: 0 <= i < index ==> slots[i] == None
      {
        slots[index] := None;
        index := index + 1;
      }
      numArgs := 0;
      maxArgs := CommandMaxArgv;
      argv := slots;
      Args := [];
    }

    /** command_argv_push: stores a copy of `arg` in the first free slot, or
        fails when all COMMAND_MAX_ARGV slots are taken. */
    method ArgvPush(arg: string) returns (status: int)
      requires Valid()
      modifies this, argv
      ensures Valid()
      ensures status == (if old(numArgs) < maxArgs then 0 else -1)
      ensures Args == if status == 0 then old(Args) + [arg] else old(Args)
    {
      var index := numArgs;
      if index >= maxArgs {
        return -1;
      }
      argv[index] := Some(arg);
      numArgs := numArgs + 1;
      Args := Args + [arg];
      return 0;
    }

    /** command_argv_pop: frees the last argument and sets its slot to NULL, or
        fails when there is none. */
    method ArgvPop() returns (status: int)
      requires Valid()
      modifies this, argv
      ensures Valid()
      ensures status == (if old(numArgs) > 0 then 0 else -1)
      ensures Args == if status == 0 then old(Args)[..old(numArgs) - 1] else old(Args)
    {
      var index := numArgs - 1;
      if index < 0 {
        return -1;
      }
      argv[index] := None;
      numArgs := numArgs - 1;
      Args := Args[..index];
      return 0;
    }

    /** command_destroy: pops until no argument is left (the free is not modelled). */
    method Destroy()
      requires Valid()
      modifies this, argv
      ensures Valid() && Args == []
    {
      while numArgs > 0
        invariant Valid()
        decreases numArgs
      {
        var _ := ArgvPop();
      }
    }
  }

  /** A push followed by a pop: when the push succeeded the command is exactly as
      before, slots included; when it failed the pop removed the last argument. */
  method PushThenPop(cmd: Command, arg: string)
    requires cmd.Valid()
    modifies cmd, cmd.argv
    ensures cmd.Valid()
    ensures |old(cmd.Args)| < CommandMaxArgv ==> cmd.Args == old(cmd.Args) && cmd.argv[..] == old(cmd.argv[..])
    ensures |old(cmd.Args)| == CommandMaxArgv ==> cmd.Args == old(cmd.Args)[..CommandMaxArgv - 1]
  {
    var pushed := cmd.ArgvPush(arg);
    var popped := cmd.ArgvPop();
  }

  /** expression_t: `cmds` is the fixed array of command pointers, null when unused.
      `Commands` is the list of argument vectors of the stored commands. Each
      stored command is owned by the expression: no two slots share a command
      or an argument array. */
  class Expression {
    var background: bool
    var numCmds: int
    const maxCmds: int
    const cmds: array<Command?>
    ghost var Commands: seq<seq<string>>
    ghost var Repr: set<object>

    ghost predicate Valid()
      reads this, Repr
    {
      && this in Repr && cmds in Repr
      && maxCmds == cmds.Length == ExpressionMaxCmds
      && numCmds == |Commands| <= maxCmds
      && (forall i :: 0 <= i < numCmds ==>
            && cmds[i] != null && cmds[i] in Repr && cmds[i].argv in Repr
            && cmds[i].Valid() && cmds[i].Args == Commands[i])
      && (forall i :: numCmds <= i < maxCmds ==> cmds[i] == null)
      && (forall i, j :: 0 <= i < j < numCmds ==> cmds[i] != cmds[j] && cmds[i].argv != cmds[j].argv)
    }

    /** expression_create: foreground, no commands, capacity EXPRESSION_MAX_CMDS,
        every slot NULL. */
    constructor ()
      ensures Valid() && fresh(Repr)
      ensures !background && numCmds == 0 && Commands == []
    {
      var slots := new Command?[ExpressionMaxCmds];
      var index := 0;
      while index < slots.Length
        invariant 0 <= index <= slots.Length
        invariant forall i :: 0 <= i < index ==> slots[i] == null
      {
        slots[index] := null;
        index := index + 1;
      }
      background := false;
      numCmds := 0;
      maxCmds := ExpressionMaxCmds;
      cmds := slots;
      Commands := [];
      Repr := {this, slots};
    }

    /** expression_cmd_push: hands `cmd` over to the expression as its last
        command, or fails when all EXPRESSION_MAX_CMDS slots are taken. The
        caller gives up the command, so it must not already belong here. */
    method CmdPush(cmd: Command) returns (status: int)
      requires Valid() && cmd.Valid()
      requires cmd !in Repr && cmd.argv !in Repr
      modifies this, cmds
      ensures Valid() && background == old(background)
      ensures status == (if old(numCmds) < maxCmds then 0 else -1)
      ensures status == 0 ==> Commands == old(Commands) + [cmd.Args] && Repr == old(Repr) + {cmd, cmd.argv}
      ensures status == -1 ==> Commands == old(Commands) && Repr == old(Repr)
    {
      var index := numCmds;
      if index >= maxCmds {
        return -1;
      }
      cmds[index] := cmd;
      numCmds := numCmds + 1;
      Commands := Commands + [cmd.Args];
      Repr := Repr + {cmd, cmd.argv};
      return 0;
    }

    /** expression_cmd_pop: destroys the last command and sets its slot to NULL;
        the other commands are untouched. Fails when there is no command. */
    method CmdPop() returns (status: int)
      requires Valid()
      modifies Repr
      ensures Valid() && Repr == old(Repr) && background == old(background)
      ensures status == (if old(numCmds) > 0 then 0 else -1)
      ensures Commands == if status == 0 then old(Commands)[..old(numCmds) - 1] else old(Commands)
    {
      var index := numCmds - 1;
      if index < 0 {
        return -1;
      }
      var cmd := cmds[index];
      cmd.Destroy();
      cmds[index] := null;
      numCmds := numCmds - 1;
      Commands := Commands[..index];
      return 0;
    }

    /** expression_destroy: pops until no command is left (the free is not modelled). */
    method Destroy()
      requires Valid()
      modifies Repr
      ensures Valid() && Repr == old(Repr) && Commands == []
    {
      while numCmds != 0
        invariant Valid() && Repr == old(Repr)
        decreases numCmds
      {
        var _ := CmdPop();
      }
    }
  }
}
