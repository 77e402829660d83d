# Resolver helpers of the obligation/recommendation extraction step

This project models the small resolution and formatting layer of `etl/tools/prompt.py`.
That layer ties data extracted from court decisions back to the table rows it came from.
It covers four helpers:

- `safe_int` turns an upstream "no data" cell into `None` and converts every other value with `int()`. Text that is not a numeral raises `ValueError`.
- `get_id_pessoa_multa_cominatoria` finds the `id_pessoa` of the responsible party whose `documento_responsavel` equals the extracted punitive-fine (multa cominatória) document. It returns `None` when no document was extracted, when nothing matches, or when any lookup error occurs.
- `find_obrigacao_by_descricao` returns the index label of the first row whose first obligation description contains a fragment. It raises `IndexError` when no row matches.
- `get_pessoas_str` renders the responsible parties as `nome (tipo - documento)` segments joined by `", "`.

Files:

- `wrappers.dfy`: `Option` (a Python `None` or a missing dictionary key) and `Result` (a value or the exception raised).
- `pystr.dfy` (module `PyStr`): the Python string built-ins the helpers use. These are `sub in s`, `sep.join`, `int(s)` and `str(n)`. It also defines `s.split(sep)`, the inverse of join, which is used to state what a joined string still carries.
- `prompt.dfy` (module `Prompt`): the four helpers and their properties.

A party dictionary is a `Party` record. Each of its fields is an `Option`, and `None` means the key is absent.
Exceptions that escape to the caller are `Err(ValueError)` or `Err(IndexError)`.
Exceptions swallowed by the bare `except` become the `None` the function returns.
`get_pessoas_str` is a loop that appends to a list, so it is modelled as a method with a `for` loop. It is proved equal to the specification function `PessoasStr`. The other three helpers are expressions and are modelled as functions.

Behaviour of the code that the contracts make explicit:

- The punitive-fine lookup evaluates its comprehension over the whole list before taking element 0. A party without `documento_responsavel` anywhere in the list therefore makes the result `None`, even when an earlier party matched. A matching party without `id_pessoa` has the same effect.
- `find_obrigacao_by_descricao` reads `r['obrigacoes'][0]` for every row. An empty obligation list in any row therefore raises `IndexError`, even when another row matches. The result is the row's index label, not its position.

## Model

| member | source | states |
|---|---|---|
| `Prompt.SafeInt` | etl/tools/prompt.py:15-18 | the result is `None` exactly for the "no data" cell; an integer cell converts to itself; the only failure is `ValueError`, and only for text |
| `Prompt.SafeIntDecimalText` | etl/tools/prompt.py:18 | text written as `str(n)` converts back to `n`, for every integer `n` of the model's unbounded integers, negatives included (Python's 4300-digit limit is not modelled) |
| `Prompt.SafeIntRejectsSeparatorPadding` | etl/tools/prompt.py:18 | text padded with U+001C, which `int()` does not strip, raises `ValueError` |
| `Prompt.SafeIntRejectsNonNumeric` | etl/tools/prompt.py:18 | text holding a character that is not white space, a digit, `_` or a sign raises `ValueError` instead of defaulting to `None` |
| `PyStr.ParseIntRoundTrip` | etl/tools/prompt.py:18 | `int(str(n)) == n` for every integer of the model's unbounded integers (Python's 4300-digit limit is not modelled) |
| `PyStr.ParseIntRejectsStrayChar` | etl/tools/prompt.py:18 | `int(s)` fails when `s` holds a character outside white space, digits, `_`, `+` and `-` |
| `PyStr.NatToDecimalValue` | etl/tools/prompt.py:18 | the decimal rendering of a natural number is a numeral made only of digits, and its value is that number |
| `PyStr.Contains` | etl/tools/prompt.py:112 | `sub in s` holds exactly when `sub` occurs in `s` at some index |
| `PyStr.Find` | etl/tools/prompt.py:112 | the result is the leftmost index at which a non-empty separator occurs, and `None` exactly when it occurs nowhere |
| `Prompt.MatchingLabels` | etl/tools/prompt.py:112 | the comprehension succeeds exactly when every row has a first obligation; it is empty exactly when no row matches; its first label is that of the first matching row |
| `Prompt.FindObrigacaoByDescricao` | etl/tools/prompt.py:111-112 | the result is the label of the first row, in iteration order, whose first description contains the fragment; it succeeds exactly when every row has an obligation and some row matches; every failure is `IndexError` |
| `Prompt.FindObrigacaoFirstRow` | etl/tools/prompt.py:112 | when the fragment occurs in the first row's first description and no row is empty, the first row's label is returned |
| `Prompt.MatchingIds` | etl/tools/prompt.py:120 | the comprehension raises no KeyError exactly when every party has `documento_responsavel` and every matching party has `id_pessoa`; it is empty exactly when nothing matches; its first id is that of the first matching party |
| `Prompt.IdPessoaMultaCominatoria` | etl/tools/prompt.py:114-123 | the result is `None` when the document is absent or empty; it is present exactly when the document is non-empty, every party is readable and some party matches; a present result is the `id_pessoa` of the first matching party |
| `Prompt.LookupFirstMatch` | etl/tools/prompt.py:120 | when every party has both keys, the result is the `id_pessoa` of the first party whose document equals the extracted one |
| `Prompt.LookupMissingDocumento` | etl/tools/prompt.py:119-122 | a party without `documento_responsavel` at any position makes the result `None`, with no exception raised |
| `Prompt.TipoLabel` | etl/tools/prompt.py:131-134 | `F` becomes `Física`, `J` becomes `Jurídica`, and every other type code is passed through unchanged |
| `Prompt.PessoasStr` | etl/tools/prompt.py:126-137 | the rendered list is the empty string exactly when there are no parties |
| `Prompt.GetPessoasStr` | etl/tools/prompt.py:125-137 | the loop returns the `", "`-join of one `nome (tipo - documento)` segment per party, in input order, with `Desconhecido` for a missing key |
| `Prompt.PessoasStrSplits` | etl/tools/prompt.py:135-137 | when no field holds a comma, splitting the rendered string at `", "` gives back exactly one segment per party, in input order |
| `PyStr.SplitJoin` | etl/tools/prompt.py:137 | splitting a `", "`-join recovers the joined pieces when no piece holds a comma |
| `Prompt.SegmentNaturalPerson` | etl/tools/prompt.py:128-135 | `Ana`, document `123`, type `F` renders as `Ana (Física - 123)` |
| `Prompt.SegmentOnlyDocument` | etl/tools/prompt.py:128-135 | a party with only document `9` renders as `Desconhecido (Desconhecido - 9)` |

## Left out

- `FEW_SHOT_NER_PROMPT`, `generate_few_shot_ner_prompts_json_schema` and `generate_few_shot_ner_prompts` (etl/tools/prompt.py:44-108) are left out. They are LangChain prompt templating over external few-shot examples, and one of them uses `random.sample`.
- `get_prompt_obrigacao` and `get_prompt_recomendacao` are left out. They are fixed natural-language templates plus `strftime`. The part of them with logic is `get_pessoas_str`, which is modelled.
- `extract_obrigacao` and `extract_recomendacao` are left out. They call an external language-model extractor.
- `insert_obrigacao` and `insert_recomendacao` are left out. They copy fields into ORM objects and then add and commit through a database session, which is persistence I/O.
- `Prompt.SafeInt`: floats are not modelled, and neither is `int()`'s truncation of a float. A cell is "no data", an integer or text. Everything `pd.isna` treats as missing is the single value `NA`.
- `PyStr.ParseInt`: only the ASCII white space `int()` strips (space, `\t`, `\n`, `\v`, `\f`, `\r`) and ASCII digits are modelled. Python's `int()` also strips non-ASCII Unicode white space and accepts non-ASCII decimal digits. Python's limit on the length of a numeral is not modelled either: by default `int()` and `str()` raise ValueError above 4300 digits, while the model converts numerals of any length.
- `PyStr.ParseIntRoundTrip`: holds for integers of any length, while Python raises ValueError for numerals above 4300 digits.
- `Prompt.SafeIntDecimalText`: holds for integers of any length, while `safe_int` raises ValueError for text above 4300 digits.
- `Prompt.IdPessoaMultaCominatoria`: a row without a `responsaveis` column is not modelled. In the source that is a KeyError, which the `except` also turns into `None`. The model also assumes documents are strings. An `id_pessoa` is an integer.
- `Prompt.FindObrigacaoByDescricao`: a table without an `obrigacoes` column is not modelled. Neither is a description that is `None` (a TypeError in the source). Each row keeps only the `descricao_obrigacao` strings of its obligations.
- `Prompt.GetPessoasStr`: field values are strings. The source's f-string would also render a `None` or a number that is present under a key. Only an absent key becomes `Desconhecido`.
