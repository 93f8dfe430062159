/** The emitted program as abstract MIPS instructions, plus the label
    bookkeeping used to state what the generator promises about its local
    labels and the `beq` and `j` instructions that target them. */
module Mips {
  import opened Resultado
  import opened Rotulos

  /** Registers the generator names: the temporaries `$t0`..`$t9` are `T(k)`. */
  datatype Reg = T(k: nat) | Zero | V0 | A(k: nat) | Sp | Fp | Ra

  /** A memory operand: an offset from `$fp` or `$sp`, or a global label. */
  datatype Endereco = DoFp(off: int) | DoSp(off: int) | Global(rotulo: Rotulo)

  /** A `li` operand: a literal copied as written, or a character code. */
  datatype Imediato = Literal(texto: string) | Numero(valor: int)

  datatype AluOp = Add | Sub | Mul | Slt | Sgt | Sle | Sge | Seq | Sne | And | Or

  /** One line of output. `La` carries no label when the string pool has no
      entry for the literal (the source prints a null label there). */
  datatype Instr =
    | Li(rd: Reg, imediato: Imediato)
    | La(rd: Reg, alvoDados: Option<Rotulo>)
    | Lw(rd: Reg, ender: Endereco)
    | Sw(rs: Reg, ender: Endereco)
    | Alu(op: AluOp, rd: Reg, rs: Reg, rt: Reg)
    | Div(rs: Reg, rt: Reg)
    | Mflo(rd: Reg)
    | Addi(rd: Reg, rs: Reg, imm: int)
    | Move(rd: Reg, rs: Reg)
    | Beq(rs: Reg, rt: Reg, alvo: Rotulo)
    | J(alvo: Rotulo)
    | Jal(alvo: Rotulo)
    | Jr(rs: Reg)
    | Syscall
    | Marca(rotulo: Rotulo)
    | Globl(rotulo: Rotulo)
    | SecaoText
    | SecaoData
    | Asciiz(rotulo: Rotulo, valor: string)
    | Word(rotulo: Rotulo)

  /** Local label numbers a single instruction defines. */
  function DefDe(i: Instr): seq<nat> {
    if i.Marca? && i.rotulo.RotLocal? then [i.rotulo.n] else []
  }

  /** Local label numbers a `beq` or `j` instruction can jump to. */
  function AlvoDe(i: Instr): set<nat> {
    if (i.Beq? || i.J?) && i.alvo.RotLocal? then {i.alvo.n} else {}
  }

  /** Local labels defined by a code sequence, in order of definition. */
  function Defs(code: seq<Instr>): seq<nat>
    decreases |code|
  {
    if code == [] then [] else DefDe(code[0]) + Defs(code[1..])
  }

  /** Local labels targeted by the `beq` and `j` instructions of a code
      sequence; `jal` targets are not counted. */
  function Alvos(code: seq<Instr>): set<nat>
    decreases |code|
  {
    if code == [] then {} else AlvoDe(code[0]) + Alvos(code[1..])
  }

  lemma {:induction false} DefsConcat(a: seq<Instr>, b: seq<Instr>)
    ensures Defs(a + b) == Defs(a) + Defs(b)
    ensures Alvos(a + b) == Alvos(a) + Alvos(b)
    decreases |a|
  {
    if a == [] {
      assert a + b == b;
    } else {
      assert (a + b)[1..] == a[1..] + b;
      DefsConcat(a[1..], b);
    }
  }

  /** Defining or targeting a label is the only way a number enters the sets. */
  lemma DefsUnitario(i: Instr)
    ensures Defs([i]) == DefDe(i) && Alvos([i]) == AlvoDe(i)
  {
    assert [i][1..] == [];
  }

  /** No label number occurs twice. */
  predicate Unicos(s: seq<nat>) {
    forall i, j :: 0 <= i < j < |s| ==> s[i] != s[j]
  }

  /** Every label number lies in `[lo, hi)`. */
  predicate NoIntervalo(s: seq<nat>, lo: nat, hi: nat) {
    forall i :: 0 <= i < |s| ==> lo <= s[i] < hi
  }

  /** Label sets drawn from disjoint ranges stay duplicate-free when joined. */
  lemma UnicosConcat(a: seq<nat>, b: seq<nat>, lo: nat, mid: nat, hi: nat)
    requires lo <= mid <= hi
    requires Unicos(a) && NoIntervalo(a, lo, mid)
    requires Unicos(b) && NoIntervalo(b, mid, hi)
    ensures Unicos(a + b) && NoIntervalo(a + b, lo, hi)
  {
    forall i, j | 0 <= i < j < |a + b|
      ensures (a + b)[i] != (a + b)[j]
    {
      if j < |a| {
        assert (a + b)[i] == a[i] && (a + b)[j] == a[j];
      } else if i >= |a| {
        assert (a + b)[i] == b[i - |a|] && (a + b)[j] == b[j - |a|];
      } else {
        assert (a + b)[i] == a[i] && (a + b)[j] == b[j - |a|];
      }
    }
    forall i | 0 <= i < |a + b|
      ensures lo <= (a + b)[i] < hi
    {
      if i >= |a| {
        assert (a + b)[i] == b[i - |a|];
      }
    }
  }

  /** Joining two duplicate-free label lists that share no label. */
  lemma UnicosJunta(a: seq<nat>, b: seq<nat>)
    requires Unicos(a) && Unicos(b)
    requires forall i, j :: 0 <= i < |a| && 0 <= j < |b| ==> a[i] != b[j]
    ensures Unicos(a + b)
  {
    forall i, j | 0 <= i < j < |a + b|
      ensures (a + b)[i] != (a + b)[j]
    {
      if j < |a| {
        assert (a + b)[i] == a[i] && (a + b)[j] == a[j];
      } else if i >= |a| {
        assert (a + b)[i] == b[i - |a|] && (a + b)[j] == b[j - |a|];
      } else {
        assert (a + b)[i] == a[i] && (a + b)[j] == b[j - |a|];
      }
    }
  }

  /** An instruction that neither defines nor targets a local label. */
  predicate Neutra(i: Instr) {
    && !(i.Marca? && i.rotulo.RotLocal?)
    && !((i.Beq? || i.J?) && i.alvo.RotLocal?)
  }

  /** Code without local labels: no instruction defines or targets one. */
  predicate SemRotulosLocais(code: seq<Instr>) {
    forall i :: 0 <= i < |code| ==> Neutra(code[i])
  }

  /** Code without local labels stays so when joined. */
  lemma SemRotulosJunta(a: seq<Instr>, b: seq<Instr>)
    requires SemRotulosLocais(a) && SemRotulosLocais(b)
    ensures SemRotulosLocais(a + b)
  {
    forall i | 0 <= i < |a + b|
      ensures Neutra((a + b)[i])
    {
      if i >= |a| {
        assert (a + b)[i] == b[i - |a|];
      }
    }
  }

  lemma {:induction false} SemRotulosDefs(code: seq<Instr>)
    requires SemRotulosLocais(code)
    ensures Defs(code) == [] && Alvos(code) == {}
    decreases |code|
  {
    if code != [] {
      assert DefDe(code[0]) == [] && AlvoDe(code[0]) == {};
      SemRotulosDefs(code[1..]);
    }
  }

  /** Every local label a code sequence's `beq` or `j` targets is one it
      defines, or in `extra`. */
  predicate Fechado(code: seq<Instr>, extra: set<nat>) {
    forall n :: n in Alvos(code) ==> n in Defs(code) || n in extra
  }
}
