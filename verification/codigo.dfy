/** The MIPS generator's bookkeeping: a stack of ten temporaries, a label
    counter, the string pool and the frame map, threaded explicitly. The
    emitted program is a sequence of abstract instructions. */
module Codigo {
  import opened Resultado
  import opened Ast
  import opened Formas
  import opened Rotulos
  import opened Mips
  import opened Literais
  import opened Frame

  /** Number of temporaries `$t0`..`$t9`. */
  const NTemp: nat := 10

  /** Why generation stops: temporaries exhausted, or a function declaration
      of neither accepted shape (both end the process in the source). */
  datatype FalhaGen = TemporariosEsgotados | DeclaracaoMalformada(nome: string)

  /** Mutable generator state: live temporaries and the next local label. */
  datatype Gen = Gen(temps: nat, rotulo: nat)

  /** What the code of one function reads: its frame map, the string pool
      and the number of its exit label. */
  datatype Ambiente = Ambiente(quadro: Quadro, pool: Pool, saida: nat)

  /** Code of an expression and the register holding its value. */
  datatype ExprGerada = ExprGerada(g: Gen, code: seq<Instr>, reg: Reg)

  /** Code of a statement, an argument list or a function. */
  datatype Gerado = Gerado(g: Gen, code: seq<Instr>)

  // ---------------------------------------------------------------------
  // Temporaries and labels
  // ---------------------------------------------------------------------

  /** Takes the next temporary; failure when all ten are live. */
  function Talloc(g: Gen): (r: Result<(Gen, Reg), FalhaGen>)
    ensures r.Failure? <==> g.temps >= NTemp
    ensures r.Failure? ==> r.error == TemporariosEsgotados
    ensures r.Success? ==> r.value.0 == g.(temps := g.temps + 1) && r.value.1 == T(g.temps)
  {
    if g.temps >= NTemp then Failure(TemporariosEsgotados)
    else Success((g.(temps := g.temps + 1), T(g.temps)))
  }

  /** Releases the most recent temporary; never goes below zero. */
  function Tfree(g: Gen): (r: Gen)
    ensures r.rotulo == g.rotulo
    ensures r.temps == if g.temps > 0 then g.temps - 1 else 0
  {
    if g.temps > 0 then g.(temps := g.temps - 1) else g
  }

  /** A successful allocation followed by a release restores the state;
      releasing with nothing live changes nothing. */
  lemma TallocTfree(g: Gen)
    ensures Talloc(g).Success? ==> Tfree(Talloc(g).value.0) == g
    ensures g.temps == 0 ==> Tfree(g) == g
  {
  }

  /** A fresh local label `L<n>`; the counter only grows. */
  function NovoRotulo(g: Gen): (r: (Gen, Rotulo))
    ensures r.0.temps == g.temps && r.0.rotulo == g.rotulo + 1
    ensures r.1 == RotLocal(g.rotulo)
  {
    (g.(rotulo := g.rotulo + 1), RotLocal(g.rotulo))
  }

  /** The labels drawn by `k` successive calls of `NovoRotulo` from `g`. */
  function Sorteados(g: Gen, k: nat): seq<Rotulo>
    decreases k
  {
    if k == 0 then [] else [NovoRotulo(g).1] + Sorteados(NovoRotulo(g).0, k - 1)
  }

  /** Labels drawn one after another are `L<n>`, `L<n+1>`, …: no two are
      equal, and none equals a label drawn later, from the state they leave
      or any state after it. */
  lemma {:induction false} NovoRotuloUnico(g: Gen, k: nat)
    ensures |Sorteados(g, k)| == k
    ensures forall i :: 0 <= i < k ==> Sorteados(g, k)[i] == RotLocal(g.rotulo + i)
    ensures forall i, j :: 0 <= i < j < k ==> Sorteados(g, k)[i] != Sorteados(g, k)[j]
    ensures forall h: Gen, i :: h.rotulo >= NRotulos(g, k).rotulo && 0 <= i < k ==> Sorteados(g, k)[i] != NovoRotulo(h).1
    decreases k
  {
    if k > 0 {
      var g1 := NovoRotulo(g).0;
      NovoRotuloUnico(g1, k - 1);
      var s, t := Sorteados(g, k), Sorteados(g1, k - 1);
      assert s == [RotLocal(g.rotulo)] + t;
      forall i | 0 <= i < k
        ensures s[i] == RotLocal(g.rotulo + i)
      {
        if i > 0 {
          assert s[i] == t[i - 1];
        }
      }
    }
  }

  /** The state after drawing `k` labels. */
  function NRotulos(g: Gen, k: nat): (r: Gen)
    ensures r == Gen(g.temps, g.rotulo + k)
    decreases k
  {
    if k == 0 then g else NRotulos(NovoRotulo(g).0, k - 1)
  }

  function Max(a: nat, b: nat): nat {
    if a >= b then a else b
  }

  /** A statement the generator accepts: one the grammar builds. Stated
      once here so that callers check it as a single fact. */
  predicate ComandoGeravel(c: Node) {
    WfCmd(c)
  }

  // ---------------------------------------------------------------------
  // Register demand: an independent count of the temporaries an
  // expression or statement needs above those already live
  // ---------------------------------------------------------------------

  function Demanda(e: Node): (d: nat)
    ensures d >= 1
    decreases e, 1, 0
  {
    if e.kind == Atrib && |e.children| == 2 then Demanda(e.children[1])
    else if e.kind == Op && |e.children| == 1 then Demanda(e.children[0])
    else if e.kind == Op && |e.children| == 2 then Max(Demanda(e.children[0]), 1 + Demanda(e.children[1]))
    else if e.kind == ChamadaFuncao then
      Max(1, if |e.children| > 0 then DemandaArgs(e.children[0], 0) else 0)
    else 1
  }

  /** Demand of the passed arguments: only the first four are evaluated. */
  function DemandaArgs(lista: Node, i: nat): nat
    decreases lista, 0, |lista.children| - i
  {
    if i >= |lista.children| || i >= 4 then 0
    else Max(Demanda(lista.children[i]), DemandaArgs(lista, i + 1))
  }

  function DemandaCmd(c: Node): nat
    decreases c, 1, 0
  {
    if (c.kind == Retorne || c.kind == Escrita) && |c.children| == 1 then Demanda(c.children[0])
    else if (c.kind == Se || c.kind == Enquanto) && |c.children| == 2 then
      Max(Demanda(c.children[0]), DemandaCmd(c.children[1]))
    else if c.kind == Senao && |c.children| == 2 && |c.children[0].children| == 2 then
      Max(Demanda(c.children[0].children[0]),
          Max(DemandaCmd(c.children[0].children[1]), DemandaCmd(c.children[1])))
    else if c.kind == Bloco && |c.children| == 2 then DemandaLista(c.children[1], 0)
    else if c.kind == Atrib || c.kind == ChamadaFuncao then Demanda(c)
    else 0
  }

  function DemandaLista(l: Node, i: nat): nat
    decreases l, 0, |l.children| - i
  {
    if i >= |l.children| then 0 else Max(DemandaCmd(l.children[i]), DemandaLista(l, i + 1))
  }

  /** Local labels a statement draws: one per `se`, two per `se/senao` and
      per `enquanto`. */
  function NumRotulos(c: Node): nat
    decreases c, 1, 0
  {
    if c.kind == Se && |c.children| == 2 then 1 + NumRotulos(c.children[1])
    else if c.kind == Senao && |c.children| == 2 && |c.children[0].children| == 2 then
      2 + NumRotulos(c.children[0].children[1]) + NumRotulos(c.children[1])
    else if c.kind == Enquanto && |c.children| == 2 then 2 + NumRotulos(c.children[1])
    else if c.kind == Bloco && |c.children| == 2 then NumRotulosLista(c.children[1], 0)
    else 0
  }

  function NumRotulosLista(l: Node, i: nat): nat
    decreases l, 0, |l.children| - i
  {
    if i >= |l.children| then 0 else NumRotulos(l.children[i]) + NumRotulosLista(l, i + 1)
  }

  // ---------------------------------------------------------------------
  // Expressions
  // ---------------------------------------------------------------------

  /** `li` of a character literal loads the code of its second character
      (the one after the opening quote), or 0 when the text is one
      character long. */
  function CodigoCar(texto: string): (c: int)
    requires |texto| >= 1
    ensures c >= 0
    ensures |texto| == 1 ==> c == 0
  {
    if |texto| >= 2 then texto[1] as int else 0
  }

  /** The instruction for a unary operator, result back into its operand's
      register; an unknown operator emits nothing. */
  function InstrUnario(op: string, a: Reg): (code: seq<Instr>)
    ensures |code| == if Unario(op) then 1 else 0
    ensures forall k :: 0 <= k < |code| ==>
              code[k].Alu? && code[k].rd == a && code[k].rs in {a, Zero} && code[k].rt in {a, Zero}
  {
    if op == "uminus" then [Alu(Sub, a, Zero, a)]
    else if op == "!" then [Alu(Seq, a, a, Zero)]
    else []
  }

  /** The instruction for a binary operator, result into the left register. */
  function InstrBinario(op: string, a: Reg, b: Reg): (code: seq<Instr>)
    ensures code == [] <==> !Binario(op)
    ensures |code| == 2 <==> op == "/"
    ensures forall k :: 0 <= k < |code| ==>
              code[k] == Div(a, b) || code[k] == Mflo(a)
              || (code[k].Alu? && code[k].rd == a && code[k].rs == a && code[k].rt == b)
    ensures Relacional(op) ==> code[0].Alu? && code[0].op in {Slt, Sgt, Sle, Sge, Seq, Sne}
  {
    if op == "+" then [Alu(Add, a, a, b)]
    else if op == "-" then [Alu(Sub, a, a, b)]
    else if op == "*" then [Alu(Mul, a, a, b)]
    else if op == "/" then [Div(a, b), Mflo(a)]
    else if op == "<" then [Alu(Slt, a, a, b)]
    else if op == ">" then [Alu(Sgt, a, a, b)]
    else if op == "<=" then [Alu(Sle, a, a, b)]
    else if op == ">=" then [Alu(Sge, a, a, b)]
    else if op == "==" then [Alu(Seq, a, a, b)]
    else if op == "!=" then [Alu(Sne, a, a, b)]
    else if op == "e" then [Alu(And, a, a, b)]
    else if op == "ou" then [Alu(Or, a, a, b)]
    else []
  }

  /** Before a call: push the `n` live temporaries, `$t<i>` at `4i($sp)`. */
  function Salva(n: nat): (code: seq<Instr>)
    ensures n == 0 ==> code == []
    ensures n > 0 ==> |code| == n + 1 && code[0] == Addi(Sp, Sp, 0 - n * Palavra)
    ensures n > 0 ==> forall i :: 0 <= i < n ==> code[1 + i] == Sw(T(i), DoSp(i * Palavra))
  {
    if n == 0 then []
    else [Addi(Sp, Sp, 0 - n * Palavra)] + seq(n, i requires 0 <= i < n => Sw(T(i), DoSp(i * Palavra)))
  }

  /** After a call: reload the same `n` temporaries and pop them. */
  function Restaura(n: nat): (code: seq<Instr>)
    ensures n == 0 ==> code == []
    ensures n > 0 ==> |code| == n + 1 && code[n] == Addi(Sp, Sp, n * Palavra)
    ensures n > 0 ==> forall i :: 0 <= i < n ==> code[i] == Lw(T(i), DoSp(i * Palavra))
  {
    if n == 0 then []
    else seq(n, i requires 0 <= i < n => Lw(T(i), DoSp(i * Palavra))) + [Addi(Sp, Sp, n * Palavra)]
  }

  /** Registers a code sequence stores to, or loads from, the stack. */
  function Salvos(code: seq<Instr>): set<Reg> {
    set i | 0 <= i < |code| && code[i].Sw? && code[i].ender.DoSp? :: code[i].rs
  }

  function Restaurados(code: seq<Instr>): set<Reg> {
    set i | 0 <= i < |code| && code[i].Lw? && code[i].ender.DoSp? :: code[i].rd
  }

  /** Total `$sp` adjustment of a code sequence. */
  function AjustePilha(code: seq<Instr>): int
    decreases |code|
  {
    if code == [] then 0
    else (if code[0].Addi? && code[0].rd == Sp && code[0].rs == Sp then code[0].imm else 0) + AjustePilha(code[1..])
  }

  /** A call spills exactly the live temporaries, restores exactly those,
      each from the slot it was saved to, and leaves `$sp` where it was. */
  lemma SalvaRestaura(n: nat)
    ensures Salvos(Salva(n)) == Restaurados(Restaura(n)) == set i | 0 <= i < n :: T(i)
    ensures forall i :: 0 <= i < n ==> Salva(n)[1 + i].ender == Restaura(n)[i].ender
    ensures AjustePilha(Salva(n) + Restaura(n)) == 0
  {
    SalvaRegistradores(n);
    RestauraRegistradores(n);
    PilhaEquilibrada(n);
  }

  lemma SalvaRegistradores(n: nat)
    ensures Salvos(Salva(n)) == set i | 0 <= i < n :: T(i)
  {
    var s := Salva(n);
    if n > 0 {
      forall r | r in Salvos(s) ensures r in set i | 0 <= i < n :: T(i) {
        var k :| 0 <= k < |s| && s[k].Sw? && s[k].ender.DoSp? && s[k].rs == r;
        assert k >= 1;
      }
      forall i | 0 <= i < n ensures T(i) in Salvos(s) {
        assert s[1 + i].rs == T(i);
      }
    }
  }

  lemma RestauraRegistradores(n: nat)
    ensures Restaurados(Restaura(n)) == set i | 0 <= i < n :: T(i)
  {
    var r := Restaura(n);
    if n > 0 {
      forall x | x in Restaurados(r) ensures x in set i | 0 <= i < n :: T(i) {
        var k :| 0 <= k < |r| && r[k].Lw? && r[k].ender.DoSp? && r[k].rd == x;
        assert k < n;
      }
      forall i | 0 <= i < n ensures T(i) in Restaurados(r) {
        assert r[i].rd == T(i);
      }
    }
  }

  lemma PilhaEquilibrada(n: nat)
    ensures AjustePilha(Salva(n) + Restaura(n)) == 0
  {
    var s := Salva(n);
    var r := Restaura(n);
    if n > 0 {
      AjusteSemAddi(s[1..]);
      AjusteSemAddi(r[..n]);
      AjusteConcat(s[..1], s[1..]);
      assert s == s[..1] + s[1..];
      AjusteConcat(r[..n], r[n..]);
      assert r == r[..n] + r[n..];
      AjusteConcat(s, r);
    }
  }

  lemma {:induction false} AjusteConcat(a: seq<Instr>, b: seq<Instr>)
    ensures AjustePilha(a + b) == AjustePilha(a) + AjustePilha(b)
    decreases |a|
  {
    if a == [] {
      assert a + b == b;
    } else {
      assert (a + b)[1..] == a[1..] + b;
      AjusteConcat(a[1..], b);
    }
  }

  lemma {:induction false} AjusteSemAddi(a: seq<Instr>)
    requires forall i :: 0 <= i < |a| ==> !a[i].Addi?
    ensures AjustePilha(a) == 0
    decreases |a|
  {
    if a != [] {
      AjusteSemAddi(a[1..]);
    }
  }

  /** `gera_expr`: code leaving the value in a fresh temporary. */
  function GeraExpr(env: Ambiente, g: Gen, e: Node): (r: Result<ExprGerada, FalhaGen>)
    requires WfValor(e) && g.temps <= NTemp
    ensures r.Success? <==> g.temps + Demanda(e) <= NTemp
    ensures r.Failure? ==> r.error == TemporariosEsgotados
    ensures r.Success? ==> r.value.g == Gen(g.temps + 1, g.rotulo) && r.value.reg == T(g.temps)
    ensures r.Success? ==> SemRotulosLocais(r.value.code)
    decreases e, 1, 0
  {
    if e.kind == Atrib then
      var rhs :- GeraExpr(env, g, e.children[1]);
      Success(ExprGerada(rhs.g, rhs.code + [Sw(rhs.reg, Localiza(env.quadro, e.children[0].text.value))], rhs.reg))
    else if e.kind == Op then GeraOp(env, g, e)
    else if e.kind == ChamadaFuncao then GeraChamada(env, g, e)
    else GeraFolha(env, g, e)
  }

  /** Literals and identifiers: one temporary, one load. */
  function GeraFolha(env: Ambiente, g: Gen, e: Node): (r: Result<ExprGerada, FalhaGen>)
    requires WfValor(e) && e.kind in {Int, Car, Str, Id} && g.temps <= NTemp
    ensures r.Success? <==> g.temps + Demanda(e) <= NTemp
    ensures r.Failure? ==> r.error == TemporariosEsgotados
    ensures r.Success? ==> r.value.g == Gen(g.temps + 1, g.rotulo) && r.value.reg == T(g.temps)
    ensures r.Success? ==> |r.value.code| == 1 && SemRotulosLocais(r.value.code)
  {
    var a :- Talloc(g);
    var carga :=
      if e.kind == Int then Li(a.1, Literal(e.text.value))
      else if e.kind == Car then Li(a.1, Numero(CodigoCar(e.text.value)))
      else if e.kind == Str then La(a.1, Obter(env.pool, e.text.value))
      else Lw(a.1, Localiza(env.quadro, e.text.value));
    Success(ExprGerada(a.0, [carga], a.1))
  }

  /** Operators: the result stays in the left operand's register; a binary
      operator releases the right one. */
  function GeraOp(env: Ambiente, g: Gen, e: Node): (r: Result<ExprGerada, FalhaGen>)
    requires WfExpr(e) && e.kind == Op && g.temps <= NTemp
    ensures r.Success? <==> g.temps + Demanda(e) <= NTemp
    ensures r.Failure? ==> r.error == TemporariosEsgotados
    ensures r.Success? ==> r.value.g == Gen(g.temps + 1, g.rotulo) && r.value.reg == T(g.temps)
    ensures r.Success? ==> SemRotulosLocais(r.value.code)
    decreases e, 0, 1
  {
    if |e.children| == 1 then GeraUnario(env, g, e) else GeraBinario(env, g, e)
  }

  function GeraUnario(env: Ambiente, g: Gen, e: Node): (r: Result<ExprGerada, FalhaGen>)
    requires WfExpr(e) && e.kind == Op && |e.children| == 1 && g.temps <= NTemp
    ensures r.Success? <==> g.temps + Demanda(e) <= NTemp
    ensures r.Failure? ==> r.error == TemporariosEsgotados
    ensures r.Success? ==> r.value.g == Gen(g.temps + 1, g.rotulo) && r.value.reg == T(g.temps)
    ensures r.Success? ==> SemRotulosLocais(r.value.code)
    decreases e, 0, 0
  {
    var a :- GeraExpr(env, g, e.children[0]);
    SemRotulosJunta(a.code, InstrUnario(e.text.value, a.reg));
    Success(ExprGerada(a.g, a.code + InstrUnario(e.text.value, a.reg), a.reg))
  }

  function GeraBinario(env: Ambiente, g: Gen, e: Node): (r: Result<ExprGerada, FalhaGen>)
    requires WfExpr(e) && e.kind == Op && |e.children| != 1 && g.temps <= NTemp
    ensures r.Success? <==> g.temps + Demanda(e) <= NTemp
    ensures r.Failure? ==> r.error == TemporariosEsgotados
    ensures r.Success? ==> r.value.g == Gen(g.temps + 1, g.rotulo) && r.value.reg == T(g.temps)
    ensures r.Success? ==> SemRotulosLocais(r.value.code)
    decreases e, 0, 0
  {
    var a :- GeraExpr(env, g, e.children[0]);
    var b :- GeraExpr(env, a.g, e.children[1]);
    SemRotulosJunta(a.code, b.code);
    SemRotulosJunta(a.code + b.code, InstrBinario(e.text.value, a.reg, b.reg));
    Success(ExprGerada(Tfree(b.g), a.code + b.code + InstrBinario(e.text.value, a.reg, b.reg), a.reg))
  }

  /** Calls: spill the live temporaries, pass up to four arguments, jump,
      reload, and take the result into a fresh temporary. */
  function GeraChamada(env: Ambiente, g: Gen, e: Node): (r: Result<ExprGerada, FalhaGen>)
    requires WfExpr(e) && e.kind == ChamadaFuncao && g.temps <= NTemp
    ensures r.Success? <==> g.temps + Demanda(e) <= NTemp
    ensures r.Failure? ==> r.error == TemporariosEsgotados
    ensures r.Success? ==> r.value.g == Gen(g.temps + 1, g.rotulo) && r.value.reg == T(g.temps)
    ensures r.Success? ==> SemRotulosLocais(r.value.code)
    decreases e, 0, 1
  {
    var vivos := g.temps;
    var args :- GeraArgsDe(env, g, e);
    var ret :- Talloc(args.g);
    var code := Salva(vivos) + args.code + [Jal(RotuloFuncao(e.text.value))] + Restaura(vivos) + [Move(ret.1, V0)];
    ChamadaSemRotulos(vivos, args.code, RotuloFuncao(e.text.value), ret.1);
    Success(ExprGerada(ret.0, code, ret.1))
  }

  /** A call always jumps with `jal` to its function's label: the
      generator consults no function table, so the target need not be a
      function the program declares. */
  lemma ChamadaEmiteJal(env: Ambiente, g: Gen, e: Node)
    requires WfExpr(e) && e.kind == ChamadaFuncao && g.temps + Demanda(e) <= NTemp
    ensures GeraChamada(env, g, e).Success?
    ensures Jal(RotuloFuncao(e.text.value)) in GeraChamada(env, g, e).value.code
  {
  }

  lemma ChamadaSemRotulos(vivos: nat, args: seq<Instr>, f: Rotulo, r: Reg)
    requires SemRotulosLocais(args)
    ensures SemRotulosLocais(Salva(vivos) + args + [Jal(f)] + Restaura(vivos) + [Move(r, V0)])
  {
    var s, t := Salva(vivos), Restaura(vivos);
    assert SemRotulosLocais(s) by {
      forall i | 0 <= i < |s| ensures Neutra(s[i]) {
        if i > 0 { assert s[i] == Sw(T(i - 1), DoSp((i - 1) * Palavra)); }
      }
    }
    assert SemRotulosLocais(t) by {
      forall i | 0 <= i < |t| ensures Neutra(t[i]) {
        if i < vivos { assert t[i] == Lw(T(i), DoSp(i * Palavra)); }
      }
    }
    var x := s + args;
    SemRotulosJunta(s, args);
    var y := x + [Jal(f)];
    SemRotulosJunta(x, [Jal(f)]);
    var z := y + t;
    SemRotulosJunta(y, t);
    SemRotulosJunta(z, [Move(r, V0)]);
  }

  /** The argument code of a call, empty when it has no argument list. */
  function GeraArgsDe(env: Ambiente, g: Gen, e: Node): (r: Result<Gerado, FalhaGen>)
    requires WfExpr(e) && e.kind == ChamadaFuncao && g.temps <= NTemp
    ensures r.Success? <==> g.temps + (if |e.children| > 0 then DemandaArgs(e.children[0], 0) else 0) <= NTemp
    ensures r.Failure? ==> r.error == TemporariosEsgotados
    ensures r.Success? ==> r.value.g == g && SemRotulosLocais(r.value.code)
    decreases e, 0, 0
  {
    if |e.children| > 0 then GeraArgs(env, g, e.children[0], 0) else Success(Gerado(g, []))
  }

  /** Evaluates the first four arguments into `$a0`..`$a3`; each releases
      its temporary once moved. */
  function GeraArgs(env: Ambiente, g: Gen, lista: Node, i: nat): (r: Result<Gerado, FalhaGen>)
    requires i <= |lista.children| && g.temps <= NTemp
    requires forall k :: 0 <= k < |lista.children| ==> WfExpr(lista.children[k])
    ensures r.Success? <==> g.temps + DemandaArgs(lista, i) <= NTemp
    ensures r.Failure? ==> r.error == TemporariosEsgotados
    ensures r.Success? ==> r.value.g == g && SemRotulosLocais(r.value.code)
    decreases lista, 0, |lista.children| - i
  {
    if i >= |lista.children| || i >= 4 then Success(Gerado(g, []))
    else
      var x :- GeraExpr(env, g, lista.children[i]);
      var resto :- GeraArgs(env, Tfree(x.g), lista, i + 1);
      Success(Gerado(resto.g, x.code + [Move(A(i), x.reg)] + resto.code))
  }

  /** Only the first four arguments are generated: two argument lists that
      agree on them, and on how many of the four there are, give the same
      code whatever follows. */
  lemma {:induction false} SoQuatroArgumentos(env: Ambiente, g: Gen, l1: Node, l2: Node, i: nat)
    requires i <= |l1.children| && i <= |l2.children| && g.temps <= NTemp
    requires forall k :: 0 <= k < |l1.children| ==> WfExpr(l1.children[k])
    requires forall k :: 0 <= k < |l2.children| ==> WfExpr(l2.children[k])
    requires Min(|l1.children|, 4) == Min(|l2.children|, 4)
    requires forall k :: i <= k < Min(|l1.children|, 4) ==> l1.children[k] == l2.children[k]
    ensures GeraArgs(env, g, l1, i) == GeraArgs(env, g, l2, i)
    decreases |l1.children| - i
  {
    if i < |l1.children| && i < 4 {
      assert i < Min(|l1.children|, 4);
      var x := GeraExpr(env, g, l1.children[i]);
      if x.Success? {
        SoQuatroArgumentos(env, Tfree(x.value.g), l1, l2, i + 1);
      }
      ArgumentoIgual(env, g, l1, l2, i);
    } else {
      assert i >= |l2.children| || i >= 4;
    }
  }

  /** One step of `SoQuatroArgumentos`: the same argument followed by lists
      that generate alike generates alike. */
  lemma ArgumentoIgual(env: Ambiente, g: Gen, l1: Node, l2: Node, i: nat)
    requires i < |l1.children| && i < |l2.children| && i < 4 && g.temps <= NTemp
    requires forall k :: 0 <= k < |l1.children| ==> WfExpr(l1.children[k])
    requires forall k :: 0 <= k < |l2.children| ==> WfExpr(l2.children[k])
    requires l1.children[i] == l2.children[i]
    requires GeraExpr(env, g, l1.children[i]).Success? ==>
               GeraArgs(env, Tfree(GeraExpr(env, g, l1.children[i]).value.g), l1, i + 1)
               == GeraArgs(env, Tfree(GeraExpr(env, g, l1.children[i]).value.g), l2, i + 1)
    ensures GeraArgs(env, g, l1, i) == GeraArgs(env, g, l2, i)
  {
  }

  // ---------------------------------------------------------------------
  // Statements
  // ---------------------------------------------------------------------

  /** `escreva`'s syscall, chosen from the argument node's kind alone:
      4 for a string literal, 11 for a character literal, 1 otherwise. */
  function SyscallEscrita(k: Kind): int {
    if k == Str then 4 else if k == Car then 11 else 1
  }

  /** `gera_comando`: every case leaves the live temporaries as it found
      them and draws exactly `NumRotulos(c)` labels. */
  function GeraComando(env: Ambiente, g: Gen, c: Node): (r: Result<Gerado, FalhaGen>)
    requires ComandoGeravel(c) && g.temps <= NTemp
    ensures r.Success? <==> g.temps + DemandaCmd(c) <= NTemp
    ensures r.Failure? ==> r.error == TemporariosEsgotados
    ensures r.Success? ==> r.value.g == Gen(g.temps, g.rotulo + NumRotulos(c))
    decreases c, 2, 0
  {
    if c.kind == Se then GeraSe(env, g, c)
    else if c.kind == Senao then GeraSenao(env, g, c)
    else if c.kind == Enquanto then GeraEnquanto(env, g, c)
    else if c.kind == Bloco then GeraLista(env, g, c.children[1], 0)
    else GeraSimples(env, g, c)
  }

  /** Statements without sub-statements. */
  function GeraSimples(env: Ambiente, g: Gen, c: Node): (r: Result<Gerado, FalhaGen>)
    requires ComandoGeravel(c) && c.kind !in {Se, Senao, Enquanto, Bloco} && g.temps <= NTemp
    ensures r.Success? <==> g.temps + DemandaCmd(c) <= NTemp
    ensures r.Failure? ==> r.error == TemporariosEsgotados
    ensures r.Success? ==> r.value.g == g
    ensures r.Success? && c.kind != Retorne ==> SemRotulosLocais(r.value.code)
  {
    if c.kind == Atrib || c.kind == ChamadaFuncao then
      var x :- GeraExpr(env, g, c);
      Success(Gerado(Tfree(x.g), x.code))
    else if c.kind == Leitura then
      Success(Gerado(g, [Li(V0, Numero(5)), Syscall, Sw(V0, Localiza(env.quadro, c.children[0].text.value))]))
    else if c.kind == Escrita then
      var x :- GeraExpr(env, g, c.children[0]);
      var io := [Move(A(0), x.reg), Li(V0, Numero(SyscallEscrita(c.children[0].kind))), Syscall];
      SemRotulosJunta(x.code, io);
      Success(Gerado(Tfree(x.g), x.code + io))
    else if c.kind == NovaLinha then
      Success(Gerado(g, [La(A(0), Some(RotNl)), Li(V0, Numero(4)), Syscall]))
    else if c.kind == Retorne then
      var x :- GeraExpr(env, g, c.children[0]);
      Success(Gerado(Tfree(x.g), x.code + [Move(V0, x.reg), J(RotLocal(env.saida))]))
    else
      Success(Gerado(g, []))
  }

  /** `escreva` chooses its syscall from the argument's node kind, not its
      type: a `car` variable or expression is printed as an integer. */
  lemma EscritaPeloNo(env: Ambiente, g: Gen, c: Node)
    requires ComandoGeravel(c) && c.kind == Escrita && g.temps <= NTemp
    requires GeraSimples(env, g, c).Success?
    ensures |GeraSimples(env, g, c).value.code| >= 3
    ensures var code := GeraSimples(env, g, c).value.code;
              && code[|code| - 1] == Syscall
              && (code[|code| - 2] == Li(V0, Numero(4)) <==> c.children[0].kind == Str)
              && (code[|code| - 2] == Li(V0, Numero(11)) <==> c.children[0].kind == Car)
              && (c.children[0].kind !in {Str, Car} ==> code[|code| - 2] == Li(V0, Numero(1)))
  {
    var x := GeraExpr(env, g, c.children[0]).value;
    assert GeraSimples(env, g, c).value.code
        == x.code + [Move(A(0), x.reg), Li(V0, Numero(SyscallEscrita(c.children[0].kind))), Syscall];
  }

  /** `se`: one label, placed after the body. */
  function GeraSe(env: Ambiente, g: Gen, c: Node): (r: Result<Gerado, FalhaGen>)
    requires ComandoGeravel(c) && c.kind == Se && g.temps <= NTemp
    ensures r.Success? <==> g.temps + DemandaCmd(c) <= NTemp
    ensures r.Failure? ==> r.error == TemporariosEsgotados
    ensures r.Success? ==> r.value.g == Gen(g.temps, g.rotulo + NumRotulos(c))
    decreases c, 1, 0
  {
    MedidasCondicional(c);
    var (g1, fim) := NovoRotulo(g);
    var cond :- GeraExpr(env, g1, c.children[0]);
    GeraCorpoSe(env, c.children[1], cond, fim)
  }

  /** The rest of `se` once its condition is evaluated. */
  function GeraCorpoSe(env: Ambiente, corpo: Node, cond: ExprGerada, fim: Rotulo): (r: Result<Gerado, FalhaGen>)
    requires ComandoGeravel(corpo) && cond.g.temps <= NTemp
    ensures r.Success? <==> Tfree(cond.g).temps + DemandaCmd(corpo) <= NTemp
    ensures r.Failure? ==> r.error == TemporariosEsgotados
    ensures r.Success? ==> r.value.g == Gen(Tfree(cond.g).temps, cond.g.rotulo + NumRotulos(corpo))
    decreases corpo, 3, 0
  {
    var x :- GeraComando(env, Tfree(cond.g), corpo);
    Success(Gerado(x.g, cond.code + [Beq(cond.reg, Zero, fim)] + x.code + [Marca(fim)]))
  }

  /** `se/senao`: the else label and the end label, drawn in that order. */
  function GeraSenao(env: Ambiente, g: Gen, c: Node): (r: Result<Gerado, FalhaGen>)
    requires ComandoGeravel(c) && c.kind == Senao && g.temps <= NTemp
    ensures r.Success? <==> g.temps + DemandaCmd(c) <= NTemp
    ensures r.Failure? ==> r.error == TemporariosEsgotados
    ensures r.Success? ==> r.value.g == Gen(g.temps, g.rotulo + NumRotulos(c))
    decreases c, 1, 0
  {
    MedidasSenao(c);
    var (g1, senao) := NovoRotulo(g);
    var (g2, fim) := NovoRotulo(g1);
    var cond :- GeraExpr(env, g2, c.children[0].children[0]);
    GeraRamos(env, c, cond, senao, fim)
  }

  /** Both branches of `se/senao` once the condition is evaluated. */
  function GeraRamos(env: Ambiente, c: Node, cond: ExprGerada, senao: Rotulo, fim: Rotulo): (r: Result<Gerado, FalhaGen>)
    requires |c.children| == 2 && |c.children[0].children| == 2
    requires ComandoGeravel(c.children[0].children[1]) && ComandoGeravel(c.children[1]) && cond.g.temps <= NTemp
    ensures r.Success? <==>
              Tfree(cond.g).temps + Max(DemandaCmd(c.children[0].children[1]), DemandaCmd(c.children[1])) <= NTemp
    ensures r.Failure? ==> r.error == TemporariosEsgotados
    ensures r.Success? ==>
              r.value.g == Gen(Tfree(cond.g).temps,
                               cond.g.rotulo + NumRotulos(c.children[0].children[1]) + NumRotulos(c.children[1]))
    decreases c, 0, 0
  {
    var entao :- GeraComando(env, Tfree(cond.g), c.children[0].children[1]);
    GeraSenaoFim(env, c.children[1], cond, entao, senao, fim)
  }

  /** The `else` branch, once the `then` branch is generated. */
  function GeraSenaoFim(env: Ambiente, outro: Node, cond: ExprGerada, entao: Gerado, senao: Rotulo, fim: Rotulo)
    : (r: Result<Gerado, FalhaGen>)
    requires ComandoGeravel(outro) && entao.g.temps <= NTemp
    ensures r.Success? <==> entao.g.temps + DemandaCmd(outro) <= NTemp
    ensures r.Failure? ==> r.error == TemporariosEsgotados
    ensures r.Success? ==> r.value.g == Gen(entao.g.temps, entao.g.rotulo + NumRotulos(outro))
    decreases outro, 3, 0
  {
    var x :- GeraComando(env, entao.g, outro);
    Success(Gerado(x.g,
                   cond.code + [Beq(cond.reg, Zero, senao)] + entao.code + [J(fim), Marca(senao)]
                   + x.code + [Marca(fim)]))
  }

  /** `enquanto`: the loop-head label and the exit label. */
  function GeraEnquanto(env: Ambiente, g: Gen, c: Node): (r: Result<Gerado, FalhaGen>)
    requires ComandoGeravel(c) && c.kind == Enquanto && g.temps <= NTemp
    ensures r.Success? <==> g.temps + DemandaCmd(c) <= NTemp
    ensures r.Failure? ==> r.error == TemporariosEsgotados
    ensures r.Success? ==> r.value.g == Gen(g.temps, g.rotulo + NumRotulos(c))
    decreases c, 1, 0
  {
    MedidasCondicional(c);
    var (g1, inicio) := NovoRotulo(g);
    var (g2, fim) := NovoRotulo(g1);
    var cond :- GeraExpr(env, g2, c.children[0]);
    GeraCorpoEnquanto(env, c.children[1], cond, inicio, fim)
  }

  /** The rest of `enquanto` once its condition is evaluated. */
  function GeraCorpoEnquanto(env: Ambiente, corpo: Node, cond: ExprGerada, inicio: Rotulo, fim: Rotulo)
    : (r: Result<Gerado, FalhaGen>)
    requires ComandoGeravel(corpo) && cond.g.temps <= NTemp
    ensures r.Success? <==> Tfree(cond.g).temps + DemandaCmd(corpo) <= NTemp
    ensures r.Failure? ==> r.error == TemporariosEsgotados
    ensures r.Success? ==> r.value.g == Gen(Tfree(cond.g).temps, cond.g.rotulo + NumRotulos(corpo))
    decreases corpo, 3, 0
  {
    var x :- GeraComando(env, Tfree(cond.g), corpo);
    Success(Gerado(x.g,
                   [Marca(inicio)] + cond.code + [Beq(cond.reg, Zero, fim)] + x.code
                   + [J(inicio), Marca(fim)]))
  }

  /** How demand and label count of a compound statement break down over
      its parts. */
  lemma MedidasCondicional(c: Node)
    requires ComandoGeravel(c) && (c.kind == Se || c.kind == Enquanto)
    ensures |c.children| == 2
    ensures WfExpr(c.children[0]) && ComandoGeravel(c.children[1])
    ensures DemandaCmd(c) == Max(Demanda(c.children[0]), DemandaCmd(c.children[1]))
    ensures NumRotulos(c) == (if c.kind == Se then 1 else 2) + NumRotulos(c.children[1])
  {
  }

  lemma MedidasSenao(c: Node)
    requires ComandoGeravel(c) && c.kind == Senao
    ensures |c.children| == 2 && |c.children[0].children| == 2
    ensures WfExpr(c.children[0].children[0]) && ComandoGeravel(c.children[0].children[1]) && ComandoGeravel(c.children[1])
    ensures DemandaCmd(c)
              == Max(Demanda(c.children[0].children[0]),
                     Max(DemandaCmd(c.children[0].children[1]), DemandaCmd(c.children[1])))
    ensures NumRotulos(c) == 2 + NumRotulos(c.children[0].children[1]) + NumRotulos(c.children[1])
  {
  }

  /** A statement list, in order. */
  function GeraLista(env: Ambiente, g: Gen, l: Node, i: nat): (r: Result<Gerado, FalhaGen>)
    requires i <= |l.children| && g.temps <= NTemp
    requires forall k :: 0 <= k < |l.children| ==> ComandoGeravel(l.children[k])
    ensures r.Success? <==> g.temps + DemandaLista(l, i) <= NTemp
    ensures r.Failure? ==> r.error == TemporariosEsgotados
    ensures r.Success? ==> r.value.g == Gen(g.temps, g.rotulo + NumRotulosLista(l, i))
    decreases l, 0, |l.children| - i
  {
    if i == |l.children| then Success(Gerado(g, []))
    else
      var x :- GeraComando(env, g, l.children[i]);
      var resto :- GeraLista(env, x.g, l, i + 1);
      Success(Gerado(resto.g, x.code + resto.code))
  }

  // ---------------------------------------------------------------------
  // Functions
  // ---------------------------------------------------------------------

  predicate ParamsGeraveis(l: Node) {
    forall i :: 0 <= i < |l.children| ==> WfParam(l.children[i])
  }

  /** A declaration `[type, Funcao[params, block]]`. */
  predicate FormaFuncao(d: Node) {
    |d.children| > 1 && d.children[1].kind == Funcao
  }

  /** Otherwise, a declaration whose first child is a block (`programa`). */
  predicate FormaPrograma(d: Node) {
    !FormaFuncao(d) && |d.children| > 0 && d.children[0].kind == Bloco
  }

  /** What the generator reads of a declaration in each accepted shape. */
  predicate GeravelFuncao(d: Node) {
    && d.text.Some?
    && (FormaFuncao(d) ==>
          && |d.children[1].children| == 2
          && ParamsGeraveis(d.children[1].children[0])
          && WfBloco(d.children[1].children[1]))
    && (FormaPrograma(d) ==> WfBloco(d.children[0]))
  }

  /** The function's block in either shape. */
  function BlocoDe(d: Node): (b: Node)
    requires GeravelFuncao(d) && (FormaFuncao(d) || FormaPrograma(d))
    ensures WfBloco(b)
  {
    if FormaFuncao(d) then d.children[1].children[1] else d.children[0]
  }

  /** Parameter names, in order; none for the `programa` shape. */
  function NomesParams(d: Node): (ps: seq<string>)
    requires GeravelFuncao(d) && (FormaFuncao(d) || FormaPrograma(d))
    ensures FormaPrograma(d) ==> ps == []
    ensures |ps| == NumParams(d)
  {
    if FormaFuncao(d) then
      var l := d.children[1].children[0];
      seq(|l.children|, i requires 0 <= i < |l.children| && ParamsGeraveis(l) => l.children[i].children[1].text.value)
    else []
  }

  /** How many parameters the declaration lists. */
  function NumParams(d: Node): nat {
    if FormaFuncao(d) && |d.children[1].children| > 0 then |d.children[1].children[0].children| else 0
  }

  /** Names declared in the function's outermost block, in order. */
  function NomesLocais(b: Node): seq<string>
    requires WfBloco(b)
  {
    var l := b.children[0];
    seq(|l.children|, j requires 0 <= j < |l.children| && WfLocais(l) => l.children[j].text.value)
  }

  /** Incoming `$a0`..`$a3` are stored into the first four parameter slots. */
  function GuardaArgs(np: nat): (code: seq<Instr>)
    ensures |code| == Min(np, 4)
    ensures forall i :: 0 <= i < |code| ==> code[i] == Sw(A(i), DoFp(2 * Palavra + Palavra * i))
  {
    GuardaDesde(0, Min(np, 4))
  }

  /** The stores for argument registers `i..n-1`. */
  function GuardaDesde(i: nat, n: nat): (code: seq<Instr>)
    requires i <= n
    ensures |code| == n - i
    ensures forall k :: 0 <= k < |code| ==> code[k] == Sw(A(i + k), DoFp(2 * Palavra + Palavra * (i + k)))
    decreases n - i
  {
    if i == n then [] else [Sw(A(i), DoFp(2 * Palavra + Palavra * i))] + GuardaDesde(i + 1, n)
  }

  /** Entry sequence: section and label, `programa:` beside `main`, frame
      allocation, saved `$ra` and `$fp`, new `$fp`, incoming arguments. */
  function Prologo(nome: string, tam: int, np: nat): (code: seq<Instr>)
  {
    Cabecalho(nome) + AbreQuadro(tam) + GuardaArgs(np)
  }

  /** The section directive and the function's label, with `programa:`
      beside `main`. */
  function Cabecalho(nome: string): seq<Instr> {
    var lf := RotuloFuncao(nome);
    [Globl(lf), SecaoText, Marca(lf)] + (if nome == "programa" then [Marca(RotPrograma)] else [])
  }

  /** Frame allocation, saved `$ra` and `$fp`, and the new `$fp`. */
  function AbreQuadro(tam: int): seq<Instr> {
    [Addi(Sp, Sp, 0 - tam), Sw(Ra, DoSp(0)), Sw(Fp, DoSp(Palavra)), Move(Fp, Sp)]
  }

  /** Exit sequence, entered at the exit label every `retorne` jumps to. */
  function Epilogo(saida: Rotulo, tam: int): (code: seq<Instr>)
  {
    [Marca(saida)] + Retorno(tam)
  }

  /** Restores `$ra` and `$fp`, pops the frame and returns to the caller. */
  function Retorno(tam: int): (code: seq<Instr>)
  {
    [Lw(Ra, DoSp(0)), Lw(Fp, DoSp(Palavra)), Addi(Sp, Sp, tam), Jr(Ra)]
  }

  /** Prologue and epilogue pair up: the epilogue pops exactly the bytes the
      prologue pushed, and reloads exactly the registers the prologue saved
      on the stack. */
  lemma MolduraEquilibrada(nome: string, tam: int, np: nat, saida: Rotulo)
    ensures AjustePilha(Prologo(nome, tam, np)) == 0 - tam
    ensures AjustePilha(Epilogo(saida, tam)) == tam
    ensures Salvos(Prologo(nome, tam, np)) == Restaurados(Epilogo(saida, tam)) == {Ra, Fp}
    ensures Sw(Ra, DoSp(0)) in Prologo(nome, tam, np) && Lw(Ra, DoSp(0)) in Epilogo(saida, tam)
    ensures Sw(Fp, DoSp(Palavra)) in Prologo(nome, tam, np) && Lw(Fp, DoSp(Palavra)) in Epilogo(saida, tam)
  {
    PrologoEquilibrado(nome, tam, np);
    EpilogoPartes(saida, tam);
  }

  /** The prologue lowers `$sp` by the frame size and saves `$ra` and `$fp`
      at the bottom of the new frame. */
  lemma PrologoEquilibrado(nome: string, tam: int, np: nat)
    ensures AjustePilha(Prologo(nome, tam, np)) == 0 - tam
    ensures Salvos(Prologo(nome, tam, np)) == {Ra, Fp}
    ensures Sw(Ra, DoSp(0)) in Prologo(nome, tam, np) && Sw(Fp, DoSp(Palavra)) in Prologo(nome, tam, np)
  {
    var c, q, a := Cabecalho(nome), AbreQuadro(tam), GuardaArgs(np);
    assert Prologo(nome, tam, np) == c + q + a;
    CabecalhoSemPilha(nome);
    PrologoPartes(c, q, a, tam);
  }

  /** The header lines are directives and labels only. */
  lemma CabecalhoSemPilha(nome: string)
    ensures forall i :: 0 <= i < |Cabecalho(nome)| ==>
              Cabecalho(nome)[i].Globl? || Cabecalho(nome)[i].SecaoText? || Cabecalho(nome)[i].Marca?
  {
  }

  /** The label and section lines before the frame setup and the argument
      stores after it neither move `$sp` nor save anything on the stack. */
  lemma PrologoPartes(cabeca: seq<Instr>, quadro: seq<Instr>, guarda: seq<Instr>, tam: int)
    requires forall i :: 0 <= i < |cabeca| ==> cabeca[i].Globl? || cabeca[i].SecaoText? || cabeca[i].Marca?
    requires quadro == [Addi(Sp, Sp, 0 - tam), Sw(Ra, DoSp(0)), Sw(Fp, DoSp(Palavra)), Move(Fp, Sp)]
    requires forall i :: 0 <= i < |guarda| ==> guarda[i].Sw? && guarda[i].ender.DoFp?
    ensures AjustePilha(cabeca + quadro + guarda) == 0 - tam
    ensures Salvos(cabeca + quadro + guarda) == {Ra, Fp}
    ensures Sw(Ra, DoSp(0)) in cabeca + quadro + guarda && Sw(Fp, DoSp(Palavra)) in cabeca + quadro + guarda
  {
    var p := cabeca + quadro + guarda;
    AjusteSemAddi(cabeca);
    AjusteSemAddi(guarda);
    AjusteConcat(cabeca, quadro);
    AjusteConcat(cabeca + quadro, guarda);
    assert AjustePilha(quadro) == 0 - tam by {
      AjusteConcat([quadro[0]], quadro[1..]);
      AjusteSemAddi(quadro[1..]);
      assert [quadro[0]] + quadro[1..] == quadro;
    }
    forall x | x in Salvos(p) ensures x in {Ra, Fp} {
      var i :| 0 <= i < |p| && p[i].Sw? && p[i].ender.DoSp? && p[i].rs == x;
      if |cabeca| <= i < |cabeca + quadro| {
        assert p[i] == quadro[i - |cabeca|];
      }
    }
    assert p[|cabeca| + 1] == Sw(Ra, DoSp(0)) && p[|cabeca| + 2] == Sw(Fp, DoSp(Palavra));
  }

  /** The exit sequence defines the exit label, reloads `$ra` and `$fp`,
      pops the frame and returns through `$ra`. */
  lemma EpilogoPartes(saida: Rotulo, tam: int)
    ensures AjustePilha(Epilogo(saida, tam)) == tam
    ensures Restaurados(Epilogo(saida, tam)) == {Ra, Fp}
    ensures Lw(Ra, DoSp(0)) in Epilogo(saida, tam) && Lw(Fp, DoSp(Palavra)) in Epilogo(saida, tam)
    ensures |Epilogo(saida, tam)| == 5 && Epilogo(saida, tam)[0] == Marca(saida) && Epilogo(saida, tam)[4] == Jr(Ra)
  {
    var e := Epilogo(saida, tam);
    assert e == [Marca(saida), Lw(Ra, DoSp(0)), Lw(Fp, DoSp(Palavra)), Addi(Sp, Sp, tam), Jr(Ra)];
    assert e[1] == Lw(Ra, DoSp(0)) && e[2] == Lw(Fp, DoSp(Palavra));
    AjusteConcat(e[..3], e[3..]);
    AjusteSemAddi(e[..3]);
    assert e[..3] + e[3..] == e;
    assert AjustePilha(e[3..]) == tam by {
      AjusteConcat([e[3]], e[4..]);
      AjusteSemAddi(e[4..]);
      assert [e[3]] + e[4..] == e[3..];
    }
  }

  /** The frame reserves two words for `$ra` and `$fp` and one word per
      frame entry; every parameter slot lies inside it. */
  lemma TamanhoDoQuadro(d: Node)
    requires GeravelFuncao(d) && (FormaFuncao(d) || FormaPrograma(d))
    ensures var vs := VagasParametros(NomesParams(d)) + VagasLocais(NomesLocais(BlocoDe(d)));
            TamanhoDe(d) == 2 * Palavra + Palavra * |vs|
    ensures forall i :: 0 <= i < |NomesParams(d)| ==>
              0 <= VagasParametros(NomesParams(d))[i].off < TamanhoDe(d)
  {
  }

  /** The frame of a function: its parameters, then its outer block's locals. */
  function QuadroDe(d: Node): Quadro
    requires GeravelFuncao(d) && (FormaFuncao(d) || FormaPrograma(d))
  {
    Layout(NomesParams(d), NomesLocais(BlocoDe(d)))
  }

  /** A name that is neither a parameter nor an outermost local of the
      function, such as a local of a nested block, is addressed as the
      global `var_<name>`. */
  lemma ForaDoQuadroGlobal(d: Node, nome: string)
    requires GeravelFuncao(d) && (FormaFuncao(d) || FormaPrograma(d))
    requires nome !in NomesParams(d) && nome !in NomesLocais(BlocoDe(d))
    ensures Localiza(QuadroDe(d), nome) == Global(RotVar(nome))
  {
    ForaDoLayout(NomesParams(d), NomesLocais(BlocoDe(d)), nome);
  }

  function TamanhoDe(d: Node): int
    requires GeravelFuncao(d) && (FormaFuncao(d) || FormaPrograma(d))
  {
    TamanhoFrame(NumParams(d), |NomesLocais(BlocoDe(d))|)
  }

  /** `gera_funcao`: one exit label drawn before the body; the body sees
      the frame map of the parameters and outermost locals only. */
  function GeraFuncao(pool: Pool, g: Gen, d: Node): (r: Result<Gerado, FalhaGen>)
    requires GeravelFuncao(d) && g.temps <= NTemp
    ensures !FormaFuncao(d) && !FormaPrograma(d) ==> r == Failure(DeclaracaoMalformada(d.text.value))
    ensures FormaFuncao(d) || FormaPrograma(d) ==>
              && (r.Success? <==> g.temps + DemandaCmd(BlocoDe(d)) <= NTemp)
              && (r.Failure? ==> r.error == TemporariosEsgotados)
              && (r.Success? ==> r.value.g == Gen(g.temps, g.rotulo + 1 + NumRotulos(BlocoDe(d))))
  {
    if !FormaFuncao(d) && !FormaPrograma(d) then Failure(DeclaracaoMalformada(d.text.value))
    else GeraDeclarada(pool, g, d)
  }

  /** A declaration of an accepted shape: prologue, body, exit label and
      epilogue. */
  function GeraDeclarada(pool: Pool, g: Gen, d: Node): (r: Result<Gerado, FalhaGen>)
    requires GeravelFuncao(d) && (FormaFuncao(d) || FormaPrograma(d)) && g.temps <= NTemp
    ensures r.Success? <==> g.temps + DemandaCmd(BlocoDe(d)) <= NTemp
    ensures r.Failure? ==> r.error == TemporariosEsgotados
    ensures r.Success? ==> r.value.g == Gen(g.temps, g.rotulo + 1 + NumRotulos(BlocoDe(d)))
  {
    GeraMoldura(QuadroDe(d), pool, g, BlocoDe(d), d.text.value, TamanhoDe(d), NumParams(d))
  }

  /** The body generated against the function's frame map, with the exit
      label `L<n>` drawn first, and wrapped in prologue and epilogue. */
  function GeraMoldura(quadro: Quadro, pool: Pool, g: Gen, b: Node, nome: string, tam: int, np: nat)
    : (r: Result<Gerado, FalhaGen>)
    requires ComandoGeravel(b) && g.temps <= NTemp
    ensures r.Success? <==> g.temps + DemandaCmd(b) <= NTemp
    ensures r.Failure? ==> r.error == TemporariosEsgotados
    ensures r.Success? ==> r.value.g == Gen(g.temps, g.rotulo + 1 + NumRotulos(b))
  {
    var corpo :- GeraComando(Ambiente(quadro, pool, g.rotulo), NovoRotulo(g).0, b);
    Success(Gerado(corpo.g, Moldura(nome, tam, np, corpo.code, RotLocal(g.rotulo))))
  }

  /** A function body wrapped in its prologue, exit label and epilogue. */
  function Moldura(nome: string, tam: int, np: nat, corpo: seq<Instr>, saida: Rotulo): seq<Instr> {
    Prologo(nome, tam, np) + corpo + Epilogo(saida, tam)
  }

  /** The functions of a declaration list are ones the generator can read;
      other items of the list are skipped. */
  predicate FuncoesGeraveis(lista: Node) {
    forall k :: 0 <= k < |lista.children| && lista.children[k].kind == DeclFuncao ==>
      GeravelFuncao(lista.children[k])
  }

  /** Every function declared in the global list, in order. */
  function GeraFuncoes(pool: Pool, g: Gen, lista: Node, i: nat): (r: Result<Gerado, FalhaGen>)
    requires i <= |lista.children| && g.temps <= NTemp && FuncoesGeraveis(lista)
    ensures r.Success? ==> r.value.g.temps == g.temps && r.value.g.rotulo >= g.rotulo
    decreases |lista.children| - i
  {
    if i == |lista.children| then Success(Gerado(g, []))
    else if lista.children[i].kind == DeclFuncao then
      var f :- GeraFuncao(pool, g, lista.children[i]);
      var resto :- GeraFuncoes(pool, f.g, lista, i + 1);
      Success(Gerado(resto.g, f.code + resto.code))
    else GeraFuncoes(pool, g, lista, i + 1)
  }
}
