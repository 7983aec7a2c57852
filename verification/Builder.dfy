/**
 * The block builder: its state as a value, the operations on that value, and
 * the mutable object the lowering drives. None stands for the None that
 * terminate and switch_to_block return and for the panic of emit.
 */
module Builder {
  import opened Core
  import opened Mir

  datatype State = State(blocks: seq<Block>, current: nat, finalized: set<nat>, locals: seq<Ty>)

  const EMPTY_BLOCK := Block([], Diverge)

  function NewBlock(b: State): State {
    b.(blocks := b.blocks + [EMPTY_BLOCK])
  }

  function NewLocal(b: State, ty: Ty): State {
    b.(locals := b.locals + [ty])
  }

  function Closed(b: State): bool {
    b.current in b.finalized
  }

  function TerminateWith(b: State, t: Terminator): Option<State> {
    if Closed(b) || b.current >= |b.blocks| then None
    else Some(b.(finalized := b.finalized + {b.current},
                 blocks := b.blocks[b.current := b.blocks[b.current].(terminator := t)]))
  }

  function SwitchTo(b: State, block: nat): Option<State> {
    if block in b.finalized then None else Some(b.(current := block))
  }

  function Emit(b: State, s: MirStmt): Option<State> {
    if Closed(b) || b.current >= |b.blocks| then None
    else
      var here := b.blocks[b.current];
      Some(b.(blocks := b.blocks[b.current := here.(stmts := here.stmts + [s])]))
  }

  /** Succeeds only when every allocated block was terminated. */
  function Finalize(b: State): Option<Graph> {
    if |b.finalized| != |b.blocks| then None else Some(Graph(b.blocks, b.locals))
  }

  /** The mutable builder. */
  class MIRBuilder {
    var blocks: seq<Block>
    var locals: seq<Ty>
    var currentBlock: nat
    var finalizedBlocks: set<nat>

    ghost function View(): State
      reads this
    {
      State(blocks, currentBlock, finalizedBlocks, locals)
    }

    constructor ()
      ensures View() == State([EMPTY_BLOCK], 0, {}, [])
    {
      blocks := [EMPTY_BLOCK];
      locals := [];
      currentBlock := 0;
      finalizedBlocks := {};
    }

    method Terminate(t: Terminator) returns (r: Option<()>)
      modifies this
      ensures r.Some? <==> TerminateWith(old(View()), t).Some?
      ensures View() == if r.Some? then TerminateWith(old(View()), t).value else old(View())
    {
      if currentBlock in finalizedBlocks || currentBlock >= |blocks| {
        return None;
      }
      finalizedBlocks := finalizedBlocks + {currentBlock};
      blocks := blocks[currentBlock := blocks[currentBlock].(terminator := t)];
      return Some(());
    }

    method SwitchToBlock(block: nat) returns (r: Option<()>)
      modifies this
      ensures r.Some? <==> SwitchTo(old(View()), block).Some?
      ensures View() == if r.Some? then SwitchTo(old(View()), block).value else old(View())
    {
      if block in finalizedBlocks {
        return None;
      }
      currentBlock := block;
      return Some(());
    }

    method EmitStmt(s: MirStmt) returns (r: Option<()>)
      modifies this
      ensures r.Some? <==> Emit(old(View()), s).Some?
      ensures View() == if r.Some? then Emit(old(View()), s).value else old(View())
    {
      if currentBlock in finalizedBlocks || currentBlock >= |blocks| {
        return None;
      }
      var here := blocks[currentBlock];
      blocks := blocks[currentBlock := here.(stmts := here.stmts + [s])];
      return Some(());
    }

    method AddBlock() returns (id: nat)
      modifies this
      ensures id == |old(View()).blocks| && View() == NewBlock(old(View()))
    {
      id := |blocks|;
      blocks := blocks + [EMPTY_BLOCK];
    }

    method AddLocal(ty: Ty) returns (id: nat)
      modifies this
      ensures id == |old(View()).locals| && View() == NewLocal(old(View()), ty)
    {
      id := |locals|;
      locals := locals + [ty];
    }

    method IsTerminated(block: nat) returns (r: bool)
      ensures r <==> block in finalizedBlocks
    {
      r := block in finalizedBlocks;
    }

    method FinalizeBlocks() returns (r: Option<Graph>)
      ensures r == Finalize(View())
    {
      r := if |finalizedBlocks| != |blocks| then None else Some(Graph(blocks, locals));
    }
  }
}
