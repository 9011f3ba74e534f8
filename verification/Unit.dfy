/** The mutable RTL unit (struct RTLUnit) that the builder fills and the optimizer rewrites in place. */
module Unit {
  import opened Rtl

  class RtlUnit {
    var decl: Decl
    var insns: seq<Insn>
    var spans: seq<Span>
    var edges: seq<Edges>
    var labels: seq<int>
    var regs: seq<Reg>
    var lastBlock: int
    var blockSeen: seq<bool>
    var aliasTypes: seq<Type>
    var haveBlock: bool
    var curBlock: int
    var error: bool
    var finalized: bool
    var firstLiveReg: int
    var maxLive: seq<int>
    var minDeath: seq<int>
    var membaseReg: nat

    // The blocks of the stream in order, and for each block the block whose entry list it holds
    // (itself, unless it is an overflow block).
    ghost var order: seq<int>
    ghost var owner: seq<int>

    /** rtl_create_unit: slot 0 of every table is unused. */
    constructor ()
      ensures decl == Decl([INT64], [0]) && regs == [UndefinedReg] && labels == [-1] && aliasTypes == [INT64]
      ensures insns == [] && spans == [] && edges == [] && owner == [] && order == [] && lastBlock == -1
      ensures !haveBlock && !error && !finalized && firstLiveReg == 0 && maxLive == [] && minDeath == []
      ensures membaseReg == 0
    {
      decl := Decl([INT64], [0]);
      insns, spans, edges, labels := [], [], [], [-1];
      regs := [UndefinedReg];
      lastBlock := -1;
      blockSeen := [];
      aliasTypes := [INT64];
      haveBlock, curBlock, error, finalized := false, 0, false, false;
      firstLiveReg, maxLive, minDeath, membaseReg := 0, [], [], 0;
      order, owner := [], [];
    }

    ghost function Snap(): Code
      reads this
    {
      Code(decl, insns, spans, labels)
    }
  }
}
