/** A function's frame: the name-to-offset map the generator consults for
    parameters and locals, and the frame layout of a function. */
module Frame {
  import opened Rotulos
  import opened Mips

  /** Capacity of the frame map; further additions are dropped. */
  const MaxFrame: nat := 64

  /** The "not found" answer of a lookup (`INT_MAX` of a 32-bit `int`). */
  const IntMax: int := 0x7fff_ffff

  const Palavra: int := 4

  /** One frame-map entry: a name and its offset from `$fp`. */
  datatype Vaga = Vaga(nome: string, off: int)

  /** Entries in insertion order. */
  type Quadro = seq<Vaga>

  /** Appends an entry unless the map is full. */
  function FrameAdd(m: Quadro, nome: string, off: int): (r: Quadro)
    ensures |m| <= |r| <= |m| + 1 && r[..|m|] == m
    ensures |m| < MaxFrame ==> |r| == |m| + 1 && r[|m|] == Vaga(nome, off)
    ensures |m| >= MaxFrame ==> r == m
  {
    if |m| < MaxFrame then m + [Vaga(nome, off)] else m
  }

  /** `i` is the first entry for `nome`. */
  predicate PrimeiraVaga(m: Quadro, nome: string, i: int) {
    0 <= i < |m| && m[i].nome == nome && forall k :: 0 <= k < i ==> m[k].nome != nome
  }

  /** Offset of the first entry for `nome`, or `IntMax` when there is none. */
  function FrameGet(m: Quadro, nome: string): (r: int)
    ensures (forall i :: 0 <= i < |m| ==> m[i].nome != nome) ==> r == IntMax
    ensures forall i :: PrimeiraVaga(m, nome, i) ==> r == m[i].off
    decreases |m|
  {
    if m == [] then IntMax
    else if m[0].nome == nome then m[0].off
    else
      var r := FrameGet(m[1..], nome);
      assert forall i :: PrimeiraVaga(m, nome, i) ==> PrimeiraVaga(m[1..], nome, i - 1);
      r
  }

  /** Lookup is first-match: adding never changes the answer for a name
      already present, and a full map ignores the addition entirely. */
  lemma FrameAddGet(m: Quadro, x: string, off: int, nome: string)
    ensures FrameGet(FrameAdd(m, x, off), nome) ==
              if |m| < MaxFrame && x == nome && (forall i :: 0 <= i < |m| ==> m[i].nome != nome)
              then off else FrameGet(m, nome)
  {
    var r := FrameAdd(m, x, off);
    if |m| < MaxFrame {
      if exists i :: 0 <= i < |m| && m[i].nome == nome {
        var i := PrimeiroIndice(m, nome);
        assert PrimeiraVaga(r, nome, i);
      } else if x == nome {
        assert PrimeiraVaga(r, nome, |m|);
      }
    }
  }

  lemma PrimeiroIndice(m: Quadro, nome: string) returns (i: nat)
    requires exists i :: 0 <= i < |m| && m[i].nome == nome
    ensures PrimeiraVaga(m, nome, i)
    decreases |m|
  {
    if m[0].nome == nome {
      i := 0;
    } else {
      var k :| 0 <= k < |m| && m[k].nome == nome;
      assert m[1..][k - 1].nome == nome;
      var j := PrimeiroIndice(m[1..], nome);
      i := j + 1;
    }
  }

  /** Where a name lives: its frame slot, or the global `var_<name>` when
      the frame map has no entry for it. */
  function Localiza(m: Quadro, nome: string): (r: Endereco)
    ensures (forall i :: 0 <= i < |m| ==> m[i].nome != nome) ==> r == Global(RotVar(nome))
    ensures forall i :: PrimeiraVaga(m, nome, i) && m[i].off != IntMax ==> r == DoFp(m[i].off)
  {
    var off := FrameGet(m, nome);
    if off != IntMax then DoFp(off) else Global(RotVar(nome))
  }

  // ---------------------------------------------------------------------
  // Layout
  // ---------------------------------------------------------------------

  /** Adds entries one by one, as the source's loops do. */
  function AdicionaVagas(m: Quadro, vs: seq<Vaga>): Quadro
    decreases |vs|
  {
    if vs == [] then m else AdicionaVagas(FrameAdd(m, vs[0].nome, vs[0].off), vs[1..])
  }

  function Min(a: int, b: int): int {
    if a <= b then a else b
  }

  /** Adding a batch keeps the first entries up to capacity and drops the rest. */
  lemma {:induction false} AdicionaVagasTrunca(m: Quadro, vs: seq<Vaga>)
    requires |m| <= MaxFrame
    ensures AdicionaVagas(m, vs) == (m + vs)[..Min(MaxFrame, |m| + |vs|)]
    decreases |vs|
  {
    if vs != [] {
      var m1 := FrameAdd(m, vs[0].nome, vs[0].off);
      AdicionaVagasTrunca(m1, vs[1..]);
      if |m| < MaxFrame {
        assert m1 + vs[1..] == m + vs;
      } else {
        assert (m + vs)[..MaxFrame] == m;
        assert (m1 + vs[1..])[..MaxFrame] == m;
      }
    }
  }

  /** Parameter `i` sits above the saved `$ra`/`$fp` pair, at `8 + 4i`. */
  function VagasParametros(ps: seq<string>): (vs: seq<Vaga>)
    ensures |vs| == |ps|
    ensures forall i :: 0 <= i < |ps| ==> vs[i] == Vaga(ps[i], 2 * Palavra + Palavra * i)
  {
    seq(|ps|, i requires 0 <= i < |ps| => Vaga(ps[i], 2 * Palavra + Palavra * i))
  }

  /** Local `j` is given offset `-8 - 4j`. */
  function VagasLocais(ls: seq<string>): (vs: seq<Vaga>)
    ensures |vs| == |ls|
    ensures forall j :: 0 <= j < |ls| ==> vs[j] == Vaga(ls[j], -2 * Palavra - Palavra * j)
  {
    seq(|ls|, j requires 0 <= j < |ls| => Vaga(ls[j], -2 * Palavra - Palavra * j))
  }

  /** The frame map of a function: parameters, then its outer block's locals. */
  function Layout(ps: seq<string>, ls: seq<string>): Quadro {
    AdicionaVagas(AdicionaVagas([], VagasParametros(ps)), VagasLocais(ls))
  }

  /** Bytes reserved by the prologue: saved `$ra` and `$fp`, one word per
      parameter and one per outer-block local. */
  function TamanhoFrame(np: nat, nl: nat): (t: int)
    ensures t >= 2 * Palavra && t % Palavra == 0
  {
    2 * Palavra + np * Palavra + nl * Palavra
  }

  /** The layout holds the first 64 of the parameter and local entries, in
      that order. */
  lemma LayoutConteudo(ps: seq<string>, ls: seq<string>)
    ensures Layout(ps, ls) == (VagasParametros(ps) + VagasLocais(ls))[..Min(MaxFrame, |ps| + |ls|)]
  {
    var vp := VagasParametros(ps);
    var vl := VagasLocais(ls);
    AdicionaVagasTrunca([], vp);
    var m := AdicionaVagas([], vp);
    assert [] + vp == vp;
    AdicionaVagasTrunca(m, vl);
    if |vp| <= MaxFrame {
      assert m == vp;
    } else {
      assert m == vp[..MaxFrame];
      assert (m + vl)[..MaxFrame] == (vp + vl)[..MaxFrame];
    }
  }

  /** A parameter whose name no earlier parameter shares is found at
      `8 + 4i`, inside the frame `[0, size)`. */
  lemma ParametroNoQuadro(ps: seq<string>, ls: seq<string>, i: nat)
    requires i < |ps| && i < MaxFrame
    requires forall k :: 0 <= k < i ==> ps[k] != ps[i]
    ensures FrameGet(Layout(ps, ls), ps[i]) == 8 + 4 * i
    ensures 0 <= FrameGet(Layout(ps, ls), ps[i]) < TamanhoFrame(|ps|, |ls|)
  {
    LayoutConteudo(ps, ls);
    var m := Layout(ps, ls);
    assert m[i] == VagasParametros(ps)[i];
    assert PrimeiraVaga(m, ps[i], i) by {
      forall k | 0 <= k < i
        ensures m[k].nome != ps[i]
      {
        assert m[k] == VagasParametros(ps)[k];
      }
    }
  }

  /** A local whose name no parameter or earlier local shares is found at
      `-8 - 4j`: below `$fp`, outside the frame `[0, size)` the prologue
      reserved, although the frame size counts a word for it. */
  lemma LocalForaDoQuadro(ps: seq<string>, ls: seq<string>, j: nat)
    requires j < |ls| && |ps| + j < MaxFrame
    requires forall k :: 0 <= k < |ps| ==> ps[k] != ls[j]
    requires forall k :: 0 <= k < j ==> ls[k] != ls[j]
    ensures FrameGet(Layout(ps, ls), ls[j]) == -8 - 4 * j
    ensures FrameGet(Layout(ps, ls), ls[j]) < 0
  {
    LayoutConteudo(ps, ls);
    var m := Layout(ps, ls);
    var v := VagasParametros(ps) + VagasLocais(ls);
    var p := |ps|;
    assert m[p + j] == v[p + j] == VagasLocais(ls)[j];
    assert PrimeiraVaga(m, ls[j], p + j) by {
      forall k | 0 <= k < p + j
        ensures m[k].nome != ls[j]
      {
        if k < p {
          assert m[k] == VagasParametros(ps)[k];
        } else {
          assert m[k] == VagasLocais(ls)[k - p];
        }
      }
    }
  }

  /** A name that is neither a parameter nor a local is not in the map. */
  lemma ForaDoLayout(ps: seq<string>, ls: seq<string>, nome: string)
    requires nome !in ps && nome !in ls
    ensures Localiza(Layout(ps, ls), nome) == Global(RotVar(nome))
  {
    var v := VagasParametros(ps) + VagasLocais(ls);
    forall k | 0 <= k < |ps| + |ls| && k < MaxFrame
      ensures v[k].nome != nome
    {
      if k < |ps| {
        assert v[k] == VagasParametros(ps)[k];
      } else {
        assert v[k] == VagasLocais(ls)[k - |ps|];
      }
    }
    ExcessoIgnorado(ps, ls, nome);
  }

  /** A name whose only entries lie past the 64th is not in the map: its
      uses fall back to the global label. */
  lemma ExcessoIgnorado(ps: seq<string>, ls: seq<string>, nome: string)
    requires forall k :: 0 <= k < |ps| + |ls| && k < MaxFrame ==> (VagasParametros(ps) + VagasLocais(ls))[k].nome != nome
    ensures FrameGet(Layout(ps, ls), nome) == IntMax
    ensures Localiza(Layout(ps, ls), nome) == Global(RotVar(nome))
  {
    LayoutConteudo(ps, ls);
  }
}
