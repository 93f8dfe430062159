/** Assembly labels: the kinds of label the generator emits and their text.
    Local labels are `L<n>`, string literals `str<n>`, functions `main` or
    `user_<name>`, globals `var_<name>`. */
module Rotulos {

  /** The character of a decimal digit. */
  function Digito(d: nat): (c: char)
    requires d < 10
    ensures '0' <= c <= '9'
    ensures c as int - '0' as int == d
  {
    ('0' as int + d) as char
  }

  /** `%d` of a non-negative number: its decimal digits, most significant first. */
  function Decimal(n: nat): (s: string)
    ensures |s| >= 1
    ensures forall i :: 0 <= i < |s| ==> '0' <= s[i] <= '9'
    ensures n < 10 <==> |s| == 1
    decreases n
  {
    if n < 10 then [Digito(n)] else Decimal(n / 10) + [Digito(n % 10)]
  }

  predicate SoDigitos(s: string) {
    forall i :: 0 <= i < |s| ==> '0' <= s[i] <= '9'
  }

  /** Reads a digit string back as a number (the inverse of `Decimal`). */
  function ValorDecimal(s: string): nat
    requires SoDigitos(s)
    decreases |s|
  {
    if s == [] then 0
    else ValorDecimal(s[..|s| - 1]) * 10 + (s[|s| - 1] as int - '0' as int)
  }

  /** Rendering then reading a number gives the number back. */
  lemma {:induction false} DecimalIdaEVolta(n: nat)
    ensures ValorDecimal(Decimal(n)) == n
    decreases n
  {
    if n >= 10 {
      DecimalIdaEVolta(n / 10);
      var s := Decimal(n);
      assert s[..|s| - 1] == Decimal(n / 10);
    }
  }

  /** Distinct numbers render as distinct digit strings. */
  lemma DecimalInjetivo(a: nat, b: nat)
    ensures Decimal(a) == Decimal(b) ==> a == b
  {
    DecimalIdaEVolta(a);
    DecimalIdaEVolta(b);
  }

  /** A label in the emitted program. `RotPrograma` is the extra `programa:`
      label placed beside `main`; `RotNl` is the newline string. */
  datatype Rotulo =
    | RotLocal(n: nat)
    | RotMain
    | RotPrograma
    | RotUsuario(nome: string)
    | RotVar(nome: string)
    | RotStr(n: nat)
    | RotNl

  /** The label's text as it appears in the assembly. */
  function Texto(r: Rotulo): (s: string)
    ensures |s| >= 1
    ensures s[0] == match r
                    case RotLocal(_) => 'L'
                    case RotMain => 'm'
                    case RotPrograma => 'p'
                    case RotUsuario(_) => 'u'
                    case RotVar(_) => 'v'
                    case RotStr(_) => 's'
                    case RotNl => 'n'
  {
    match r
    case RotLocal(n) => "L" + Decimal(n)
    case RotMain => "main"
    case RotPrograma => "programa"
    case RotUsuario(nome) => "user_" + nome
    case RotVar(nome) => "var_" + nome
    case RotStr(n) => "str" + Decimal(n)
    case RotNl => "nl"
  }

  /** Distinct labels have distinct texts, so reasoning about label values
      is reasoning about the emitted text. */
  lemma TextoInjetivo(a: Rotulo, b: Rotulo)
    ensures Texto(a) == Texto(b) ==> a == b
  {
    if Texto(a) == Texto(b) {
      match a
      case RotLocal(n) =>
        assert Texto(a)[1..] == Decimal(n);
        assert Texto(b)[1..] == Decimal(b.n);
        DecimalInjetivo(n, b.n);
      case RotStr(n) =>
        assert Texto(a)[3..] == Decimal(n);
        assert Texto(b)[3..] == Decimal(b.n);
        DecimalInjetivo(n, b.n);
      case RotUsuario(nome) =>
        assert Texto(a)[5..] == nome;
        assert Texto(b)[5..] == b.nome;
      case RotVar(nome) =>
        assert Texto(a)[4..] == nome;
        assert Texto(b)[4..] == b.nome;
      case RotMain =>
      case RotPrograma =>
      case RotNl =>
    }
  }

  /** The label of a function: `main` for `programa`, `user_<name>` otherwise. */
  function RotuloFuncao(nome: string): (r: Rotulo)
    ensures r == RotMain <==> nome == "programa"
    ensures r != RotMain ==> Texto(r) == "user_" + nome
  {
    if nome == "programa" then RotMain else RotUsuario(nome)
  }

  /** Different function names get different labels. */
  lemma RotuloFuncaoInjetivo(a: string, b: string)
    ensures RotuloFuncao(a) == RotuloFuncao(b) ==> a == b
  {
  }
}
