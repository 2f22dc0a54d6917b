/** The executor's methods over the shell's flag and last status. */
module Executor {
  import opened Syntax
  import opened ExecutorSpec

  class Shell {
    var trace: seq<Run>
    var running: bool
    var lastExitStatus: int
    const sys: System

    constructor (sys: System)
      ensures Abs() == State([], true, 0) && this.sys == sys
    {
      this.sys := sys;
      trace, running, lastExitStatus := [], true, 0;
    }

    ghost function Abs(): State
      reads this
    {
      State(trace, running, lastExitStatus)
    }

    method ExecuteAnd(l: Ast, r: Ast) returns (status: int)
      modifies this
      ensures (Abs(), status) == Dispatch(Bin(AndOp, l, r), old(Abs()), sys)
      decreases Bin(AndOp, l, r), 0
    {
      status := Execute(l);
      if status == 0 {
        status := Execute(r);
      }
    }

    method ExecuteOr(l: Ast, r: Ast) returns (status: int)
      modifies this
      ensures (Abs(), status) == Dispatch(Bin(OrOp, l, r), old(Abs()), sys)
      decreases Bin(OrOp, l, r), 0
    {
      status := Execute(l);
      if status != 0 {
        status := Execute(r);
      }
    }

    method ExecuteSequence(l: Ast, r: Ast) returns (status: int)
      modifies this
      ensures (Abs(), status) == Dispatch(Bin(SeqOp, l, r), old(Abs()), sys)
      decreases Bin(SeqOp, l, r), 0
    {
      var _ := Execute(l);
      status := Execute(r);
    }

    method ExecuteBlock(child: Ast, redirs: seq<Redir>) returns (status: int)
      modifies this
      ensures (Abs(), status) == Dispatch(Grp(Block, child, redirs), old(Abs()), sys)
      decreases Grp(Block, child, redirs), 0
    {
      if !sys.setup(redirs, trace, lastExitStatus) {
        return 1;
      }
      status := Execute(child);
    }

    method DispatchNode(a: Ast) returns (status: int)
      requires a != Null
      modifies this
      ensures (Abs(), status) == Dispatch(a, old(Abs()), sys)
      decreases a, 1
    {
      if a.Bin? && a.op == AndOp {
        status := ExecuteAnd(a.l, a.r);
      } else if a.Bin? && a.op == OrOp {
        status := ExecuteOr(a.l, a.r);
      } else if a.Bin? && a.op == SeqOp {
        status := ExecuteSequence(a.l, a.r);
      } else if a.Grp? && a.kind == Block {
        status := ExecuteBlock(a.child, a.redirs);
      } else {
        var (leafStatus, goesOn) := sys.leaf(a, trace, lastExitStatus);
        trace, running, status := trace + [Run(a, lastExitStatus)], goesOn, leafStatus;
      }
    }

    method Execute(a: Ast) returns (status: int)
      modifies this
      ensures (Abs(), status) == ExecutorSpec.Execute(a, old(Abs()), sys)
      decreases a, 2
    {
      if a == Null {
        return 0;
      }
      if !running {
        return lastExitStatus;
      }
      status := DispatchNode(a);
      lastExitStatus := status;
    }
  }
}
