/**
 * The resolution and formatting helpers of the obligation/recommendation
 * extraction step: `safe_int`, `find_obrigacao_by_descricao`,
 * `get_id_pessoa_multa_cominatoria` and `get_pessoas_str`.
 *
 * Exceptions that escape to the caller are modelled as `Err` values of a
 * `Result`; exceptions the source swallows become the `None` it returns.
 */
module Prompt {
  import opened Wrappers
  import opened PyStr

  /** The exceptions these helpers let escape. */
  datatype PyError = ValueError | IndexError

  const DESCONHECIDO := "Desconhecido"

  // ---------------------------------------------------------------------------
  // safe_int

  /**
   * A cell of the upstream table: the "no data" marker (None, NaN, NaT or NA,
   * everything `pd.isna` accepts), an integer, or text.
   */
  datatype Cell = NA | Int(i: int) | Text(s: string)

  /** `safe_int(value)`: `None` for "no data", otherwise `int(value)`, which may raise ValueError. */
  function SafeInt(value: Cell): (r: Result<Option<int>, PyError>)
    ensures r == Ok(None) <==> value.NA?
    ensures value.Int? ==> r == Ok(Some(value.i))
    ensures r.Err? ==> value.Text? && r.error == ValueError
  {
    match value
    case NA => Ok(None)
    case Int(i) => Ok(Some(i))
    case Text(s) =>
      match ParseInt(s)
      case Some(i) => Ok(Some(i))
      case None => Err(ValueError)
  }

  /** Text written as `str(n)` converts back to `n`. */
  lemma SafeIntDecimalText(n: int)
    ensures SafeInt(Text(IntToDecimal(n))) == Ok(Some(n))
  {
    ParseIntRoundTrip(n);
  }

  /** Non-numeric text is not defaulted to `None`: the conversion raises ValueError. */
  lemma SafeIntRejectsNonNumeric(s: string, i: nat)
    requires i < |s|
    requires !IsSpace(s[i]) && !IsDigit(s[i]) && s[i] != '_' && s[i] != '+' && s[i] != '-'
    ensures SafeInt(Text(s)) == Err(ValueError)
  {
    ParseIntRejectsStrayChar(s, i);
  }

  /** A leading information separator (U+001C) is not white space to `int()`: the text raises ValueError. */
  lemma SafeIntRejectsSeparatorPadding()
    ensures SafeInt(Text("\U{001C}5")) == Err(ValueError)
  {
    SafeIntRejectsNonNumeric("\U{001C}5", 0);
  }

  // ---------------------------------------------------------------------------
  // Responsible parties

  /**
   * A responsible-party dictionary. Each field is `None` when its key is absent:
   * `id_pessoa`, `nome_responsavel`, `documento_responsavel`, `tipo_responsavel`.
   */
  datatype Party = Party(
    idPessoa: Option<int>,
    nomeResponsavel: Option<string>,
    documentoResponsavel: Option<string>,
    tipoResponsavel: Option<string>)

  /** The party's `documento_responsavel` is exactly `doc`. */
  predicate Matches(p: Party, doc: string)
  {
    p.documentoResponsavel == Some(doc)
  }

  /**
   * Evaluating the comprehension on this party raises no KeyError: its
   * `documento_responsavel` can be read and, when it matches, so can its `id_pessoa`.
   */
  predicate Readable(p: Party, doc: string)
  {
    p.documentoResponsavel.Some? && (Matches(p, doc) ==> p.idPessoa.Some?)
  }

  /** `i` is the position of the first party, in list order, that matches `doc`. */
  ghost predicate IsFirstMatch(ps: seq<Party>, doc: string, i: int)
  {
    0 <= i < |ps| && Matches(ps[i], doc) && forall j :: 0 <= j < i ==> !Matches(ps[j], doc)
  }

  /**
   * The comprehension `[p['id_pessoa'] for p in responsaveis if p['documento_responsavel'] == doc]`:
   * the ids of the matching parties in order, or `None` when it raises KeyError.
   */
  function MatchingIds(ps: seq<Party>, doc: string): (r: Option<seq<int>>)
    ensures r.Some? <==> forall i :: 0 <= i < |ps| ==> Readable(ps[i], doc)
    ensures r.Some? ==> (r.value == [] <==> forall i :: 0 <= i < |ps| ==> !Matches(ps[i], doc))
    ensures r.Some? && r.value != [] ==>
              exists i :: IsFirstMatch(ps, doc, i) && r.value[0] == ps[i].idPessoa.value
    decreases |ps|
  {
    if |ps| == 0 then
      Some([])
    else
      var p := ps[0];
      var rest := MatchingIds(ps[1..], doc);
      assert forall i :: 1 <= i < |ps| ==> ps[i] == ps[1..][i - 1];
      if p.documentoResponsavel.None? then
        None
      else if p.documentoResponsavel.value == doc then
        if p.idPessoa.None? || rest.None? then
          None
        else
          assert IsFirstMatch(ps, doc, 0);
          Some([p.idPessoa.value] + rest.value)
      else
        assert rest.Some? && rest.value != [] ==>
                 exists i :: IsFirstMatch(ps, doc, i) && rest.value[0] == ps[i].idPessoa.value by {
          if rest.Some? && rest.value != [] {
            var k :| IsFirstMatch(ps[1..], doc, k) && rest.value[0] == ps[1..][k].idPessoa.value;
            assert IsFirstMatch(ps, doc, k + 1);
          }
        }
        rest
  }

  /**
   * `get_id_pessoa_multa_cominatoria`: the `id_pessoa` of the first responsible party
   * whose `documento_responsavel` equals the extracted punitive-fine document, or
   * `None` when no document was extracted, when nothing matches, or when any
   * KeyError or IndexError is raised on the way (the bare `except`).
   */
  function IdPessoaMultaCominatoria(responsaveis: seq<Party>, documentoMulta: Option<string>): (r: Option<int>)
    ensures documentoMulta.None? || documentoMulta.value == "" ==> r.None?
    ensures r.Some? <==>
              && documentoMulta.Some? && documentoMulta.value != ""
              && (forall i :: 0 <= i < |responsaveis| ==> Readable(responsaveis[i], documentoMulta.value))
              && (exists i :: 0 <= i < |responsaveis| && Matches(responsaveis[i], documentoMulta.value))
    ensures r.Some? ==>
              exists i :: IsFirstMatch(responsaveis, documentoMulta.value, i) && r.value == responsaveis[i].idPessoa.value
  {
    if documentoMulta.None? || documentoMulta.value == "" then
      None
    else
      match MatchingIds(responsaveis, documentoMulta.value)
      case None => None
      case Some(ids) => if |ids| == 0 then None else Some(ids[0])
  }

  /** Every party carries both keys the lookup reads. */
  predicate HasLookupKeys(ps: seq<Party>)
  {
    forall i :: 0 <= i < |ps| ==> ps[i].documentoResponsavel.Some? && ps[i].idPessoa.Some?
  }

  /** With every key present, the lookup returns exactly the first match's `id_pessoa`. */
  lemma LookupFirstMatch(ps: seq<Party>, doc: string, i: int)
    requires doc != "" && HasLookupKeys(ps) && IsFirstMatch(ps, doc, i)
    ensures IdPessoaMultaCominatoria(ps, Some(doc)) == Some(ps[i].idPessoa.value)
  {
  }

  /**
   * The whole list is scanned: a party without `documento_responsavel` anywhere,
   * even after a matching one, makes the result `None`.
   */
  lemma LookupMissingDocumento(ps: seq<Party>, doc: Option<string>, i: int)
    requires 0 <= i < |ps| && ps[i].documentoResponsavel.None?
    ensures IdPessoaMultaCominatoria(ps, doc).None?
  {
  }

  // ---------------------------------------------------------------------------
  // find_obrigacao_by_descricao

  /**
   * One row of the obligations table: its index label and the
   * `descricao_obrigacao` of each entry of its `obrigacoes` list, in order.
   */
  datatype ObligationRow<L> = ObligationRow(index: L, descricoes: seq<string>)

  /** Row `i` has a first obligation whose description contains `descricao`. */
  predicate RowMatches<L>(rows: seq<ObligationRow<L>>, descricao: string, i: int)
  {
    0 <= i < |rows| && |rows[i].descricoes| > 0 && Contains(rows[i].descricoes[0], descricao)
  }

  /** `i` is the first row, in iteration order, that matches. */
  ghost predicate IsFirstRowMatch<L>(rows: seq<ObligationRow<L>>, descricao: string, i: int)
  {
    RowMatches(rows, descricao, i) && forall j :: 0 <= j < i ==> !RowMatches(rows, descricao, j)
  }

  /**
   * The comprehension `[i for i, r in df_ob.iterrows() if descricao in r['obrigacoes'][0].descricao_obrigacao]`:
   * the labels of the matching rows in order, or IndexError when some row has no obligation.
   */
  function MatchingLabels<L>(rows: seq<ObligationRow<L>>, descricao: string): (r: Result<seq<L>, PyError>)
    ensures r.Ok? <==> forall i :: 0 <= i < |rows| ==> |rows[i].descricoes| > 0
    ensures r.Err? ==> r.error == IndexError
    ensures r.Ok? ==> (r.value == [] <==> forall i :: 0 <= i < |rows| ==> !RowMatches(rows, descricao, i))
    ensures r.Ok? && r.value != [] ==>
              exists i :: IsFirstRowMatch(rows, descricao, i) && r.value[0] == rows[i].index
    decreases |rows|
  {
    if |rows| == 0 then
      Ok([])
    else
      var row := rows[0];
      var rest := MatchingLabels(rows[1..], descricao);
      assert forall i :: 1 <= i < |rows| ==> rows[i] == rows[1..][i - 1];
      assert forall i :: 1 <= i < |rows| ==> RowMatches(rows, descricao, i) == RowMatches(rows[1..], descricao, i - 1);
      if |row.descricoes| == 0 || rest.Err? then
        Err(IndexError)
      else if Contains(row.descricoes[0], descricao) then
        assert IsFirstRowMatch(rows, descricao, 0);
        Ok([row.index] + rest.value)
      else
        assert rest.value != [] ==>
                 exists i :: IsFirstRowMatch(rows, descricao, i) && rest.value[0] == rows[i].index by {
          if rest.value != [] {
            var k :| IsFirstRowMatch(rows[1..], descricao, k) && rest.value[0] == rows[1..][k].index;
            assert IsFirstRowMatch(rows, descricao, k + 1);
          }
        }
        rest
  }

  /**
   * `find_obrigacao_by_descricao(df_ob, descricao)`: the label of the first row whose
   * first obligation's description contains `descricao`. IndexError when no row
   * matches, and also when any row, matching or not, has an empty obligation list.
   */
  function FindObrigacaoByDescricao<L>(rows: seq<ObligationRow<L>>, descricao: string): (r: Result<L, PyError>)
    ensures r.Ok? <==>
              && (forall i :: 0 <= i < |rows| ==> |rows[i].descricoes| > 0)
              && (exists i :: RowMatches(rows, descricao, i))
    ensures r.Err? ==> r.error == IndexError
    ensures r.Ok? ==> exists i :: IsFirstRowMatch(rows, descricao, i) && r.value == rows[i].index
  {
    match MatchingLabels(rows, descricao)
    case Err(e) => Err(e)
    case Ok(labels) => if |labels| == 0 then Err(IndexError) else Ok(labels[0])
  }

  /** A row matches whenever `descricao` literally occurs in its first description. */
  lemma FindObrigacaoFirstRow<L>(rows: seq<ObligationRow<L>>, descricao: string, k: int)
    requires |rows| > 0 && forall i :: 0 <= i < |rows| ==> |rows[i].descricoes| > 0
    requires 0 <= k && k + |descricao| <= |rows[0].descricoes[0]|
    requires rows[0].descricoes[0][k..k + |descricao|] == descricao
    ensures FindObrigacaoByDescricao(rows, descricao) == Ok(rows[0].index)
  {
    assert OccursAt(descricao, rows[0].descricoes[0], k);
    assert RowMatches(rows, descricao, 0);
  }

  // ---------------------------------------------------------------------------
  // get_pessoas_str

  /** The label `tipo_responsavel` is shown with: `F` and `J` are spelled out, anything else is kept. */
  function TipoLabel(tipo: string): (r: string)
    ensures tipo == "F" ==> r == "Física"
    ensures tipo == "J" ==> r == "Jurídica"
    ensures r != tipo <==> tipo == "F" || tipo == "J"
  {
    if tipo == "F" then "Física" else if tipo == "J" then "Jurídica" else tipo
  }

  /** How one party is shown: `nome (tipo - documento)`, a missing key shown as `Desconhecido`. */
  function Segment(p: Party): string
  {
    p.nomeResponsavel.GetOr(DESCONHECIDO)
      + " (" + TipoLabel(p.tipoResponsavel.GetOr(DESCONHECIDO))
      + " - " + p.documentoResponsavel.GetOr(DESCONHECIDO) + ")"
  }

  function Segments(ps: seq<Party>): seq<string>
  {
    seq(|ps|, i requires 0 <= i < |ps| => Segment(ps[i]))
  }

  /** What `get_pessoas_str(pessoas)` returns: one segment per party, in order, joined by ", ". */
  function PessoasStr(ps: seq<Party>): (r: string)
    ensures r == "" <==> ps == []
  {
    if ps != [] then
      JoinLength(Segments(ps), ", ");
      Join(Segments(ps), ", ")
    else
      ""
  }

  /** `get_pessoas_str(pessoas)`: the loop that renders each party and the final join. */
  method GetPessoasStr(pessoas: seq<Party>) returns (s: string)
    ensures s == PessoasStr(pessoas)
  {
    var pessoasStr: seq<string> := [];
    for k := 0 to |pessoas|
      invariant pessoasStr == Segments(pessoas[..k])
    {
      var pessoa := pessoas[k];
      var nome := pessoa.nomeResponsavel.GetOr(DESCONHECIDO);
      var documento := pessoa.documentoResponsavel.GetOr(DESCONHECIDO);
      var tipo := pessoa.tipoResponsavel.GetOr(DESCONHECIDO);
      if tipo == "F" {
        tipo := "Física";
      } else if tipo == "J" {
        tipo := "Jurídica";
      }
      pessoasStr := pessoasStr + [nome + " (" + tipo + " - " + documento + ")"];
    }
    assert pessoas[..|pessoas|] == pessoas;
    s := Join(pessoasStr, ", ");
  }

  /** No field of the party holds a comma. */
  predicate CommaFree(p: Party)
  {
    && ',' !in p.nomeResponsavel.GetOr(DESCONHECIDO)
    && ',' !in p.documentoResponsavel.GetOr(DESCONHECIDO)
    && ',' !in p.tipoResponsavel.GetOr(DESCONHECIDO)
  }

  /**
   * The rendered list still carries every party, in input order: splitting it at
   * ", " gives back one segment per party, provided no field holds a comma.
   */
  lemma PessoasStrSplits(ps: seq<Party>)
    requires |ps| > 0 && forall i :: 0 <= i < |ps| ==> CommaFree(ps[i])
    ensures Split(PessoasStr(ps), ", ") == Segments(ps)
  {
    var segs := Segments(ps);
    forall i | 0 <= i < |segs|
      ensures ", "[0] !in segs[i]
    {
      assert CommaFree(ps[i]);
    }
    SplitJoin(segs, ", ");
  }

  /** A natural person: `F` is spelled out. */
  lemma SegmentNaturalPerson()
    ensures Segment(Party(None, Some("Ana"), Some("123"), Some("F"))) == "Ana (Física - 123)"
  {
  }

  /** A party with only a document: name and type are shown as `Desconhecido`. */
  lemma SegmentOnlyDocument()
    ensures Segment(Party(None, None, Some("9"), None)) == "Desconhecido (Desconhecido - 9)"
  {
  }
}
