/** Label bookkeeping on plain code sequences: which local labels a piece
    of code defines, and how the pieces of each compound statement join. */
module RotulosLocais {
  import opened Rotulos
  import opened Mips

  /** No local label is defined twice, and every `beq` or `j` lands on a
      local label the code defines or on one of `extra`. */
  ghost predicate Bom(code: seq<Instr>, extra: set<nat>) {
    Unicos(Defs(code)) && Fechado(code, extra)
  }

  /** The label numbers `lo..hi-1`. */
  function Faixa(lo: nat, hi: nat): (s: set<nat>)
    ensures forall x :: x in s <==> lo <= x < hi
    decreases hi - lo
  {
    if lo >= hi then {} else {lo} + Faixa(lo + 1, hi)
  }

  /** `code` is `Bom` and defines exactly the labels of `s`, each once. */
  ghost predicate RotulosEm(code: seq<Instr>, s: set<nat>, extra: set<nat>) {
    Bom(code, extra) && forall x :: x in Defs(code) <==> x in s
  }

  /** `code` defines each of the local labels `lo..hi-1` exactly once and
      no other, and its `beq` and `j` target only local labels it defines
      or `extra`. */
  ghost predicate RotulosOk(code: seq<Instr>, lo: nat, hi: nat, extra: set<nat>) {
    RotulosEm(code, Faixa(lo, hi), extra)
  }

  // ---------------------------------------------------------------------
  // Pieces of code
  // ---------------------------------------------------------------------

  /** Joining two pieces that define disjoint sets of labels. */
  lemma Junta(a: seq<Instr>, b: seq<Instr>, sa: set<nat>, sb: set<nat>, extra: set<nat>)
    requires RotulosEm(a, sa, extra) && RotulosEm(b, sb, extra) && sa !! sb
    ensures RotulosEm(a + b, sa + sb, extra)
  {
    DefsConcat(a, b);
    var da, db := Defs(a), Defs(b);
    assert forall i, j :: 0 <= i < |da| && 0 <= j < |db| ==> da[i] != db[j] by {
      forall i, j | 0 <= i < |da| && 0 <= j < |db|
        ensures da[i] != db[j]
      {
        assert da[i] in da && db[j] in db;
      }
    }
    UnicosJunta(da, db);
  }

  /** Jumps allowed to more places. */
  lemma Amplia(code: seq<Instr>, s: set<nat>, extra: set<nat>, maisExtra: set<nat>)
    requires RotulosEm(code, s, extra) && extra <= maisExtra
    ensures RotulosEm(code, s, maisExtra)
  {
  }

  /** Once a piece defines `n` itself, jumps to `n` need not be external. */
  lemma Interno(code: seq<Instr>, s: set<nat>, n: nat, extra: set<nat>)
    requires RotulosEm(code, s, extra + {n}) && n in s
    ensures RotulosEm(code, s, extra)
  {
  }

  lemma Nenhum(code: seq<Instr>, extra: set<nat>)
    requires SemRotulosLocais(code)
    ensures RotulosEm(code, {}, extra)
  {
    SemRotulosDefs(code);
  }

  lemma UmaMarca(n: nat, extra: set<nat>)
    ensures RotulosEm([Marca(RotLocal(n))], {n}, extra)
  {
    DefsUnitario(Marca(RotLocal(n)));
  }

  lemma UmSalto(i: Instr, n: nat, extra: set<nat>)
    requires (i.Beq? || i.J?) && i.alvo == RotLocal(n) && n in extra
    ensures RotulosEm([i], {}, extra)
  {
    DefsUnitario(i);
  }

  // ---------------------------------------------------------------------
  // The label shape of each compound statement, on plain code sequences
  // ---------------------------------------------------------------------

  lemma FormaSe(cond: seq<Instr>, r: Reg, corpo: seq<Instr>, n: nat, hi: nat, saida: nat)
    requires n < hi
    requires SemRotulosLocais(cond) && RotulosOk(corpo, n + 1, hi, {saida})
    ensures RotulosOk(cond + [Beq(r, Zero, RotLocal(n))] + corpo + [Marca(RotLocal(n))], n, hi, {saida})
  {
    var e := {saida} + {n};
    var beq := Beq(r, Zero, RotLocal(n));
    Nenhum(cond, e);
    UmSalto(beq, n, e);
    UmaMarca(n, e);
    Amplia(corpo, Faixa(n + 1, hi), {saida}, e);
    Junta(cond, [beq], {}, {}, e);
    Junta(cond + [beq], corpo, {}, Faixa(n + 1, hi), e);
    Junta(cond + [beq] + corpo, [Marca(RotLocal(n))], {} + Faixa(n + 1, hi), {n}, e);
    assert {} + Faixa(n + 1, hi) + {n} == Faixa(n, hi);
    Interno(cond + [beq] + corpo + [Marca(RotLocal(n))], Faixa(n, hi), n, {saida});
  }

  /** Straight-line code and a jump in front of a piece. */
  lemma PrefixoSalto(x: seq<Instr>, i: Instr, n: nat, corpo: seq<Instr>, s: set<nat>, e: set<nat>)
    requires SemRotulosLocais(x) && (i.Beq? || i.J?) && i.alvo == RotLocal(n) && n in e
    requires RotulosEm(corpo, s, e)
    ensures RotulosEm(x + [i] + corpo, s, e)
  {
    Nenhum(x, e);
    UmSalto(i, n, e);
    Junta(x, [i], {}, {}, e);
    Junta(x + [i], corpo, {}, s, e);
    assert {} + {} + s == s;
  }

  lemma SufixoSalto(a: seq<Instr>, i: Instr, n: nat, s: set<nat>, e: set<nat>)
    requires (i.Beq? || i.J?) && i.alvo == RotLocal(n) && n in e
    requires RotulosEm(a, s, e)
    ensures RotulosEm(a + [i], s, e)
  {
    UmSalto(i, n, e);
    Junta(a, [i], s, {}, e);
    assert s + {} == s;
  }

  lemma SufixoMarca(a: seq<Instr>, n: nat, s: set<nat>, e: set<nat>)
    requires RotulosEm(a, s, e) && n !in s
    ensures RotulosEm(a + [Marca(RotLocal(n))], s + {n}, e)
  {
    UmaMarca(n, e);
    Junta(a, [Marca(RotLocal(n))], s, {n}, e);
  }

  lemma PrefixoMarca(n: nat, a: seq<Instr>, s: set<nat>, e: set<nat>)
    requires RotulosEm(a, s, e) && n !in s
    ensures RotulosEm([Marca(RotLocal(n))] + a, {n} + s, e)
  {
    UmaMarca(n, e);
    Junta([Marca(RotLocal(n))], a, {n}, s, e);
  }

  /** The `then` half of an if-else, up to the else label. */
  lemma SenaoInicio(cond: seq<Instr>, r: Reg, entao: seq<Instr>, n: nat, m: nat, f: set<nat>, e: set<nat>)
    requires SemRotulosLocais(cond) && RotulosEm(entao, f, e)
    requires n in e && m in e && n !in f
    ensures RotulosEm(cond + [Beq(r, Zero, RotLocal(n))] + entao + [J(RotLocal(m)), Marca(RotLocal(n))], f + {n}, e)
  {
    var beq := Beq(r, Zero, RotLocal(n));
    PrefixoSalto(cond, beq, n, entao, f, e);
    SufixoSaltoMarca(cond + [beq] + entao, m, n, f, e);
  }

  /** `se/senao`: labels `n` (else) and `m = n + 1` (end); the branches
      draw theirs from `n + 2` on. */
  lemma FormaSenao(cond: seq<Instr>, r: Reg, entao: seq<Instr>, outro: seq<Instr>,
                   n: nat, m: nat, lo: nat, meio: nat, hi: nat, saida: nat)
    requires m == n + 1 && lo == n + 2 && lo <= meio <= hi
    requires SemRotulosLocais(cond)
    requires RotulosOk(entao, lo, meio, {saida}) && RotulosOk(outro, meio, hi, {saida})
    ensures RotulosOk(cond + [Beq(r, Zero, RotLocal(n))] + entao + [J(RotLocal(m)), Marca(RotLocal(n))]
                      + outro + [Marca(RotLocal(m))], n, hi, {saida})
  {
    var e := {saida} + {n} + {m};
    var f1, f2 := Faixa(lo, meio), Faixa(meio, hi);
    Amplia(entao, f1, {saida}, e);
    Amplia(outro, f2, {saida}, e);
    SenaoInicio(cond, r, entao, n, m, f1, e);
    var p := cond + [Beq(r, Zero, RotLocal(n))] + entao + [J(RotLocal(m)), Marca(RotLocal(n))];
    Junta(p, outro, f1 + {n}, f2, e);
    SufixoMarca(p + outro, m, f1 + {n} + f2, e);
    FaixaDividida(n, lo, meio, hi);
    InternoDois(p + outro + [Marca(RotLocal(m))], Faixa(n, hi), n, m, saida);
  }

  /** The labels of an if-else: the else label, the `then` range, the end
      label, the `else` range. */
  lemma FaixaDividida(n: nat, lo: nat, meio: nat, hi: nat)
    requires lo == n + 2 && lo <= meio <= hi
    ensures Faixa(lo, meio) + {n} + Faixa(meio, hi) + {n + 1} == Faixa(n, hi)
  {
  }

  lemma InternoDois(code: seq<Instr>, s: set<nat>, n: nat, m: nat, saida: nat)
    requires RotulosEm(code, s, {saida} + {n} + {m}) && n in s && m in s
    ensures RotulosEm(code, s, {saida})
  {
    Interno(code, s, m, {saida} + {n});
    Interno(code, s, n, {saida});
  }

  /** A jump and a label definition at the end of a piece. */
  lemma SufixoSaltoMarca(a: seq<Instr>, m: nat, k: nat, s: set<nat>, e: set<nat>)
    requires RotulosEm(a, s, e) && m in e && k !in s
    ensures RotulosEm(a + [J(RotLocal(m)), Marca(RotLocal(k))], s + {k}, e)
  {
    SufixoSalto(a, J(RotLocal(m)), m, s, e);
    SufixoMarca(a + [J(RotLocal(m))], k, s, e);
    assert a + [J(RotLocal(m))] + [Marca(RotLocal(k))] == a + [J(RotLocal(m)), Marca(RotLocal(k))];
  }

  lemma FormaEnquanto(cond: seq<Instr>, r: Reg, corpo: seq<Instr>, n: nat, hi: nat, saida: nat)
    requires n + 2 <= hi
    requires SemRotulosLocais(cond) && RotulosOk(corpo, n + 2, hi, {saida})
    ensures RotulosOk([Marca(RotLocal(n))] + cond + [Beq(r, Zero, RotLocal(n + 1))] + corpo
                      + [J(RotLocal(n)), Marca(RotLocal(n + 1))], n, hi, {saida})
  {
    var e := {saida} + {n} + {n + 1};
    var f := Faixa(n + 2, hi);
    Amplia(corpo, f, {saida}, e);
    MarcaSeguida(n, cond, e);
    var a := [Marca(RotLocal(n))] + cond;
    SufixoSalto(a, Beq(r, Zero, RotLocal(n + 1)), n + 1, {n}, e);
    Junta(a + [Beq(r, Zero, RotLocal(n + 1))], corpo, {n}, f, e);
    SufixoSaltoMarca(a + [Beq(r, Zero, RotLocal(n + 1))] + corpo, n, n + 1, {n} + f, e);
    FaixaLaco(n, hi);
    InternoDois([Marca(RotLocal(n))] + cond + [Beq(r, Zero, RotLocal(n + 1))] + corpo
                + [J(RotLocal(n)), Marca(RotLocal(n + 1))], Faixa(n, hi), n, n + 1, saida);
  }

  /** The labels of a loop: head, body range, exit. */
  lemma FaixaLaco(n: nat, hi: nat)
    requires n + 2 <= hi
    ensures {n} + Faixa(n + 2, hi) + {n + 1} == Faixa(n, hi)
  {
  }

  lemma FormaSequencia(a: seq<Instr>, b: seq<Instr>, lo: nat, mid: nat, hi: nat, extra: set<nat>)
    requires lo <= mid <= hi
    requires RotulosOk(a, lo, mid, extra) && RotulosOk(b, mid, hi, extra)
    ensures RotulosOk(a + b, lo, hi, extra)
  {
    Junta(a, b, Faixa(lo, mid), Faixa(mid, hi), extra);
    assert Faixa(lo, mid) + Faixa(mid, hi) == Faixa(lo, hi);
  }

  /** Straight-line code in front of a piece changes nothing. */
  lemma PrefixoLivre(x: seq<Instr>, a: seq<Instr>, s: set<nat>, e: set<nat>)
    requires SemRotulosLocais(x) && RotulosEm(a, s, e)
    ensures RotulosEm(x + a, s, e)
  {
    Nenhum(x, e);
    Junta(x, a, {}, s, e);
    assert {} + s == s;
  }

  /** A label followed by straight-line code. */
  lemma MarcaSeguida(n: nat, x: seq<Instr>, e: set<nat>)
    requires SemRotulosLocais(x)
    ensures RotulosEm([Marca(RotLocal(n))] + x, {n}, e)
  {
    UmaMarca(n, e);
    Nenhum(x, e);
    Junta([Marca(RotLocal(n))], x, {n}, {}, e);
    assert {n} + {} == {n};
  }

  /** A function: straight-line prologue, body, then the exit label and
      straight-line return code. */
  lemma FormaCorpo(pro: seq<Instr>, corpo: seq<Instr>, ret: seq<Instr>, n: nat, hi: nat)
    requires n < hi && SemRotulosLocais(pro) && SemRotulosLocais(ret)
    requires RotulosOk(corpo, n + 1, hi, {n})
    ensures RotulosOk(pro + corpo + ([Marca(RotLocal(n))] + ret), n, hi, {})
  {
    var e := {} + {n};
    var f := Faixa(n + 1, hi);
    Amplia(corpo, f, {n}, e);
    MarcaSeguida(n, ret, e);
    PrefixoLivre(pro, corpo, f, e);
    Junta(pro + corpo, [Marca(RotLocal(n))] + ret, f, {n}, e);
    assert f + {n} == Faixa(n, hi);
    Interno(pro + corpo + ([Marca(RotLocal(n))] + ret), Faixa(n, hi), n, {});
  }
}
