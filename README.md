# conta-certa reconciliation core, modelled in Dafny

conta-certa reconciles two independently produced sets of financial records
and classifies each record as matched, divergent or unmatched. This project
models the reconciliation core of that system:

- **Movement reconciliation** (`backend/utils/reconciliador.py`): a bank
  statement (BAI) against ledger movements (contabilidade). It covers:
  - column lookup by normalised header name, Portuguese-formatted amounts
    and description similarity;
  - stage 1, an exact merge on (amount, calendar date);
  - stage 2, a greedy fuzzy stage that scores candidates inside an amount
    window; a bank row whose best score stays below the threshold gets a
    "potential" suggestion instead.
- **Greedy matcher over stored movements** (`backend/utils/conciliacao.py`
  and its copy in `backend/services/reconciliacao_contabil_service.py`):
  - each bank row takes the best-scoring unused ledger row;
  - the rest is reported as "somente extrato" / "somente contabilidade",
    with a summary.
- **Statement cell normalisation** (`backend/utils/extratores.py`): amount,
  date and text cells.
- **Fiscal reconciliation**
  (`backend/services/reconciliacao_fiscal_service.py`): the AGT tax-authority
  map against the supplier ledger. Header cleaning and renaming come first,
  then row normalisation, then four pandas merges: conciliados,
  divergentes_iva, so_agt and so_contabilidade.
- **Front-end row mappers** (`frontend/src/utils/extracaoDados.ts`): rows
  read from BFA / BAI spreadsheets, in "coluna" or "linha" layout, become
  statement records.

## Modules

- `Base`: Python values in a cell (`None`, `NaN`, number, string), `Option`,
  `Result`, and the Python exceptions the core raises.
- `PyText`: `str.lower`/`upper`/`strip`/`split`/`join`/`replace` and
  `re.sub(r"\s+", " ", …)` on Latin-1 text.
- `Numbers`: decimal literals as `float()` and `Decimal()` read them,
  rounding to cents, and the round trips of formatting them.
- `Dates`: `%d/%m/%Y` and `%Y-%m-%d` parsing and formatting, with calendar
  validity.
- `Joins`: the left-major equi-join and anti-join behind pandas `merge`.
- One module per core file:
  - `Reconciliador` and `MovementMatcher`, with `MatcherProperties`;
  - `Conciliacao`, with `ConciliacaoProperties`;
  - `ContabilService`;
  - `Extratores`;
  - `Fiscal`, with `FiscalProperties`;
  - `ExtracaoDados`.

Some code works by updating state step by step:
- the `_matched` flag arrays and the two stage loops of
  `reconcile_movements`;
- the greedy loop of `conciliar_movimentos_db`;
- the `valor_liq` update.

Each of these is a method with loop invariants, proved equal to a
specification function, and the properties of the source are proved as
lemmas about those functions. Pure code is written as functions and lemmas.

Behaviour of the code worth knowing, which the model keeps as written:
- **Fiscal IVA pairs.** A document with a missing (NaN) IVA on both sides is
  in `conciliados`, because pandas merges NaN keys with each other. It is
  also in `divergentes_iva`, because `NaN != NaN` holds. The two groups are
  therefore not disjoint (`FiscalProperties.NaNIvaInBoth`).
- **Fuzzy threshold default.** The similarity threshold of
  `reconcile_movements` defaults to 0.55. `date_tolerance_days` has no
  effect: its only use is a `pass`.
- **Exact stage.** The exact stage does not check for rows already used, so
  a bank row can be paired with several ledger rows
  (`MatcherProperties.ExactRepeatsBankRow`).
- **Fuzzy stage.** The fuzzy stage filters ledger rows on a copy taken
  before the stage, so a ledger row can be fuzzy-matched by more than one
  bank row (`MatcherProperties.LedgerRowMatchedTwice`).
- **Greedy sentinel.** The greedy matcher starts its best score at -1.
  With a tolerance of at least 2 plus the threshold, an eligible pair can
  score below -1 and is dropped (`ConciliacaoProperties.SentinelDropsEligible`).
- **Contabil service call.** The service calls its copy of the matcher with
  `3` as the second positional argument. That binds the amount tolerance
  (`ContabilService.CallSiteWidensWindow`), and the copy reads every stored
  movement, whatever its run.

## Model

| member | source | states |
|---|---|---|
| Reconciliador.NormName | backend/utils/reconciliador.py:10-13 | the normalised name holds only `[a-z0-9]` |
| Reconciliador.NormNameIdempotent | backend/utils/reconciliador.py:10-13 | normalising a normalised name changes nothing |
| Reconciliador.NormCols | backend/utils/reconciliador.py:17 | the dict has one entry per distinct normalised name of the frame, holding the last column with that name |
| Reconciliador.NormColsOrdered | backend/utils/reconciliador.py:17 | the dict's items come in the order in which their normalised names first occur among the columns; a later column of the same name only replaces the value |
| Reconciliador.Lookup | backend/utils/reconciliador.py:19-20 | a dict lookup finds a value exactly when the key is present, and the value is the one stored under that key |
| Reconciliador.KeyLookup | backend/utils/reconciliador.py:17-21 | a normalised candidate is found exactly when some column normalises to it, and the hit is the last such column |
| Reconciliador.FirstHitFirst | backend/utils/reconciliador.py:18-21 | the exact pass returns the hit of the first candidate present, when none before it is present |
| Reconciliador.ExactPassFirst | backend/utils/reconciliador.py:18-21 | when candidate i is the first present in the frame, the exact pass returns its column |
| Reconciliador.ExactPassMisses | backend/utils/reconciliador.py:18-21 | the exact pass finds nothing exactly when no candidate's normalised name is a column's |
| Reconciliador.FirstRelated | backend/utils/reconciliador.py:25-27 | the inner loop returns the value of an item whose key contains or is contained in the candidate's name, and nothing exactly when no item is |
| Reconciliador.FirstRelatedFirst | backend/utils/reconciliador.py:25-27 | the item the inner loop returns is the first related one in dict order |
| Reconciliador.FallbackPass | backend/utils/reconciliador.py:23-27 | the fallback returns a column whose normalised name contains or is contained in a candidate's, and nothing exactly when there is no such pair |
| Reconciliador.FallbackPassFirst | backend/utils/reconciliador.py:23-27 | the fallback answers for the first candidate that has any related item, with that candidate's first related item; every earlier candidate has none |
| Reconciliador.FindColSpec | backend/utils/reconciliador.py:15-28 | `_find_col` returns a column of the frame; an exact hit wins in candidate order; it returns None exactly when no candidate and column are related by containment; without an exact hit it takes the first candidate related to any column and, for it, the first related column in column order, and returns the last column sharing that column's normalised name |
| Reconciliador.LStripSigns | backend/utils/reconciliador.py:39 | the result is a suffix of the text that does not start with `+` or `-` |
| Reconciliador.ParseValorPtbr | backend/utils/reconciliador.py:30-49 | NaN, None and the empty string give 0.0; a number passes through |
| Reconciliador.PtbrRoundTrip | backend/utils/reconciliador.py:30-49 | any amount in cents written with `.` thousands and `,` decimals, signed or not, parses back to that amount |
| Reconciliador.PtbrDocExample | backend/utils/reconciliador.py:31-49 | `"-2.507,55"` parses to -2507.55 |
| Reconciliador.PunctToSpace | backend/utils/reconciliador.py:55 | every character other than a word character or white space becomes one space; the length is kept |
| Reconciliador.CleanText | backend/utils/reconciliador.py:51-57 | a missing text gives ""; the result is lower case, holds only word characters (as PyText.IsWordChar classifies them) and single spaces, and has no leading or trailing space |
| Reconciliador.CleanTextIdempotent | backend/utils/reconciliador.py:51-57 | cleaning a cleaned text changes nothing |
| Reconciliador.CleanFixed | backend/utils/reconciliador.py:51-57 | every text that already has the cleaned shape is its own cleaned form |
| Reconciliador.Jaccard | backend/utils/reconciliador.py:67 | the token overlap lies in [0, 1] |
| Reconciliador.JaccardSymmetric | backend/utils/reconciliador.py:67 | the token overlap does not depend on argument order |
| Reconciliador.JaccardSelf | backend/utils/reconciliador.py:67 | a non-empty token set overlaps itself with score 1 |
| Reconciliador.DescSimilarity | backend/utils/reconciliador.py:59-68 | a blank description on either side gives 0; otherwise the result is the larger of the sequence ratio and the token overlap, within [0, 1] |
| Reconciliador.SelfSimilarity | backend/utils/reconciliador.py:59-68 | a non-blank description is fully similar to itself |
| MovementMatcher.FoundColumnsExist | backend/utils/reconciliador.py:74-86 | every column the normalisers read exists in the sheet |
| MovementMatcher.NetAmount | backend/utils/reconciliador.py:90 | the net amount is a whole number of cents |
| MovementMatcher.OppositeSigns | backend/utils/reconciliador.py:89-111 | the same debit and credit give opposite amounts in the bank and ledger conventions |
| MovementMatcher.NormRow | backend/utils/reconciliador.py:84-91 | debit and credit are the parsed cells, or 0 without a column; the description is a text cell's own text and `str()` of any other cell, or "" without a column; a balance exists exactly when its column does |
| MovementMatcher.Normalize | backend/utils/reconciliador.py:71-93 | one movement per row; dates are typed exactly when a movement-date column was found, and are all missing otherwise |
| MovementMatcher.NormalizeBank | backend/utils/reconciliador.py:71-93 | every bank amount is credit minus debit, rounded to cents |
| MovementMatcher.NormalizeLedger | backend/utils/reconciliador.py:95-114 | every ledger amount is debit minus credit, rounded to cents |
| MovementMatcher.ExactEntries | backend/utils/reconciliador.py:146-159 | one match record per merged pair |
| MovementMatcher.MarkAt | backend/utils/reconciliador.py:160-161 | after marking, a row is flagged exactly when it was flagged before or one of the marked indices is its own |
| MovementMatcher.MarkedExtHits | backend/utils/reconciliador.py:160 | after stage 1 a bank row is flagged exactly when it has an exact partner |
| MovementMatcher.MarkedContHits | backend/utils/reconciliador.py:161 | after stage 1 a ledger row is flagged exactly when it has an exact partner |
| MovementMatcher.Window | backend/utils/reconciliador.py:170-172 | the candidates are exactly the open ledger rows whose amount is within the tolerance, in row order |
| MovementMatcher.BestIsFirstMax | backend/utils/reconciliador.py:173-189 | the best is the first candidate of maximal score, and only scores above the -999 sentinel are taken |
| MovementMatcher.ClosestIsFirstMin | backend/utils/reconciliador.py:211-220 | the suggestion is the first candidate with the smallest day gap, and exists whenever a candidate does |
| MovementMatcher.Decide | backend/utils/reconciliador.py:190-221 | a decision is made exactly when the window is non-empty; its ledger row is open and in the window; an accepted row scores at least the threshold |
| MovementMatcher.DecideAccepts | backend/utils/reconciliador.py:173-190 | a bank row is accepted exactly when some open in-window ledger row scores at least the threshold and above the sentinel |
| MovementMatcher.AcceptedIsFirstBest | backend/utils/reconciliador.py:173-190 | the accepted ledger row has the maximal score in the window, and every earlier one scores strictly less |
| MovementMatcher.SuggestedIsFirstClosest | backend/utils/reconciliador.py:207-221 | a suggestion is made only when no candidate clears the threshold, and it is the first with the smallest day gap |
| MovementMatcher.Unflagged | backend/utils/reconciliador.py:237-238 | the unmatched rows are exactly the unflagged ones, in row order |
| MovementMatcher.Candidates | backend/utils/reconciliador.py:170-172 | the loop computes the window |
| MovementMatcher.BestCandidate | backend/utils/reconciliador.py:173-189 | the loop computes the first maximal score over the window |
| MovementMatcher.ClosestCandidate | backend/utils/reconciliador.py:211-220 | the loop computes the first smallest day gap over the window |
| MovementMatcher.MarkPair | backend/utils/reconciliador.py:160-161 | only the two flags of the pair change, to true |
| MovementMatcher.ExactStage | backend/utils/reconciliador.py:142-161 | stage 1 emits one record per merged pair, in merge order, and flags exactly the rows with an exact partner |
| MovementMatcher.FuzzyRow | backend/utils/reconciliador.py:167-234 | one iteration of stage 2 equals the specification's step for that bank row |
| MovementMatcher.FuzzyStage | backend/utils/reconciliador.py:163-234 | stage 2 computes the specification's fuzzy and potential lists and flags |
| MovementMatcher.UnmatchedRows | backend/utils/reconciliador.py:237-238 | the loop collects the unflagged rows |
| MovementMatcher.MatchMovements | backend/utils/reconciliador.py:132-247 | the stages together compute the specified reconciliation |
| MovementMatcher.MatchFrames | backend/utils/reconciliador.py:139-140 | a frame without typed dates raises AttributeError at `.dt`; otherwise the reconciliation is computed |
| MovementMatcher.ReconcileMovements | backend/utils/reconciliador.py:117-256 | `reconcile_movements` is the matcher applied to the two normalised frames |
| MatcherProperties.ExactSound | backend/utils/reconciliador.py:142-159 | each exact match pairs rows of equal key, with amount difference 0, day gap 0 and the informational similarity |
| MatcherProperties.ExactComplete | backend/utils/reconciliador.py:142-159 | every pair of rows with equal (amount, date) key is an exact match |
| MatcherProperties.ExactDistinct | backend/utils/reconciliador.py:142-159 | no pair is matched twice in stage 1 |
| MatcherProperties.ExactRepeatsBankRow | backend/utils/reconciliador.py:142-159 | a bank row with two same-key ledger rows is matched twice |
| MatcherProperties.ExactCrossProduct | backend/utils/reconciliador.py:142-159 | when all rows share one key, stage 1 emits every pair |
| MatcherProperties.FuzzySound | backend/utils/reconciliador.py:190-206 | each fuzzy match pairs a bank and a ledger row that are both open after stage 1, with the accepted decision and the signed, rounded amount difference |
| MatcherProperties.FuzzyComplete | backend/utils/reconciliador.py:190-206 | every open bank row whose decision accepts appears among the fuzzy matches |
| MatcherProperties.FuzzyOrdered | backend/utils/reconciliador.py:167 | fuzzy matches come in bank-row order |
| MatcherProperties.LedgerRowMatchedTwice | backend/utils/reconciliador.py:164-172 | two equal bank rows both take the same ledger row, since the candidate pool is a copy taken before stage 2 |
| MatcherProperties.PotentialSound | backend/utils/reconciliador.py:207-235 | each suggestion is the decision for an open bank row, and that row stays unmatched |
| MatcherProperties.PotentialComplete | backend/utils/reconciliador.py:207-235 | every open bank row whose decision is a suggestion is reported |
| MatcherProperties.UnmatchedExt | backend/utils/reconciliador.py:237 | a bank row is unmatched exactly when it has no exact partner and no accepted fuzzy partner |
| MatcherProperties.UnmatchedCont | backend/utils/reconciliador.py:238 | a ledger row is unmatched exactly when it has no exact partner and no open bank row accepts it |
| MatcherProperties.MatchesAreMatched | backend/utils/reconciliador.py:243 | no entry of `matches` is a potential one |
| MatcherProperties.SummaryCounts | backend/utils/reconciliador.py:240-247 | each summary count is the size of its list |
| Conciliacao.ForRun | backend/utils/conciliacao.py:17-18 | the rows fetched are exactly the stored rows of the run |
| Conciliacao.NetAll | backend/utils/conciliacao.py:46-49 | every record gets its own `valor_liq`; nothing else changes |
| Conciliacao.SetNet | backend/utils/conciliacao.py:46-49 | the array holds each record with `valor_liq` set |
| Conciliacao.WithNetInPlace | backend/utils/conciliacao.py:46-49 | the loop computes the netted records |
| Conciliacao.BestMatch | backend/utils/conciliacao.py:57-80 | the inner loop computes the specified best unused candidate |
| Conciliacao.MatchAll | backend/utils/conciliacao.py:57-98 | the outer loop computes the specified greedy matches |
| Conciliacao.ConciliarMovimentosDb | backend/utils/conciliacao.py:11-117 | the run's rows go through the matcher |
| Conciliacao.ConciliarMovimentos | backend/utils/conciliacao.py:43-117 | the loops compute `Conciliar`: a row whose amount `float()` cannot read raises ValueError, otherwise netting, greedy matching and the somente lists follow |
| ConciliacaoProperties.BestUpToSpec | backend/utils/conciliacao.py:57-80 | the chosen row is open, eligible and the first of maximal score above -1; none is chosen exactly when no open row scores above -1 |
| ConciliacaoProperties.SentinelHarmless | backend/utils/conciliacao.py:57-80 | with a tolerance below 2 plus the threshold, the inner search picks a row whenever an eligible open row exists |
| ConciliacaoProperties.SentinelDropsEligible | backend/utils/conciliacao.py:59-77 | with tolerance 3, an eligible pair 2.9 apart scores -1.3 and is never matched |
| ConciliacaoProperties.GreedyFacts | backend/utils/conciliacao.py:57-98 | the greedy loop keeps its invariant: pairs in bank order, no ledger row used twice, each pair the best at its step, and no eligible row left for a skipped bank row |
| ConciliacaoProperties.Exclusive | backend/utils/conciliacao.py:57-101 | with unique ids, no bank id and no ledger id appears in two matches |
| ConciliacaoProperties.AlwaysConciliado | backend/utils/conciliacao.py:84 | every match is within the tolerance, so its status is always 'conciliado' |
| ConciliacaoProperties.WithoutMembers | backend/utils/conciliacao.py:103-104 | the "somente" lists keep exactly the records whose id is not matched |
| ConciliacaoProperties.WithoutCount | backend/utils/conciliacao.py:103-104 | with unique ids, the records kept plus the ids removed add up to the list |
| ConciliacaoProperties.ExtIdsCount | backend/utils/conciliacao.py:100 | the matched bank ids are bank ids, as many as the matches |
| ConciliacaoProperties.ContIdsCount | backend/utils/conciliacao.py:101 | the matched ledger ids are ledger ids, as many as the matches |
| ConciliacaoProperties.SummaryCounts | backend/utils/conciliacao.py:106-117 | conciliados plus somente_extrato is total_extrato, and likewise for the ledger |
| ConciliacaoProperties.FormatDataIso | backend/utils/conciliacao.py:20-30 | an ISO date is kept |
| ConciliacaoProperties.FormatDataDmy | backend/utils/conciliacao.py:20-30 | a `dd/mm/yyyy` date becomes the ISO date |
| ConciliacaoProperties.FormatDataIdempotent | backend/utils/conciliacao.py:20-30 | formatting a formatted date changes nothing |
| ConciliacaoProperties.DescritivoShape | backend/utils/conciliacao.py:37 | the description has no ASCII lower-case letter and no leading or trailing blank |
| ContabilService.AllRows | backend/services/reconciliacao_contabil_service.py:56-57 | every stored row is fetched, in order, whatever its run |
| ContabilService.SingleRunAgrees | backend/services/reconciliacao_contabil_service.py:56-57 | on a table of a single run, the service's fetch equals the run-filtered fetch |
| ContabilService.OtherRunsIncluded | backend/services/reconciliacao_contabil_service.py:56-57 | a row of another run is fetched by the service but not by the run-filtered query |
| ContabilService.ConciliarMovimentosDb | backend/services/reconciliacao_contabil_service.py:55-156 | the service's copy is the shared matcher on all stored rows |
| ContabilService.ProcessarContabilConciliacao | backend/services/reconciliacao_contabil_service.py:43 | the call binds 3 to the tolerance and keeps the default threshold |
| ContabilService.CallSiteWidensWindow | backend/services/reconciliacao_contabil_service.py:43 | a pair 2.5 apart is matched at the call site's tolerance and not at the default |
| Extratores.ParseValor | backend/utils/extratores.py:31-41 | NaN, None and "" give 0.0; a number passes through |
| Extratores.ParseValorRoundTrip | backend/utils/extratores.py:31-41 | an amount written with `.` thousands and `,` decimals parses back to itself |
| Extratores.ParsersAgree | backend/utils/extratores.py:31-41 | on such amounts `parse_valor` agrees with `parse_valor_ptbr` |
| Extratores.DotIsThousands | backend/utils/extratores.py:37 | `"12.50"` reads as 1250: a dot is always a thousands separator |
| Extratores.NormalizarData | backend/utils/extratores.py:73-81 | a falsy value gives None; a truthy non-string raises AttributeError; any date returned is a valid calendar date |
| Extratores.NormalizarDataDmy | backend/utils/extratores.py:76-78 | a `dd/mm/yyyy` text reads as its date |
| Extratores.NormalizarDataIso | backend/utils/extratores.py:76-78 | a `yyyy-mm-dd` text reads as its date |
| Extratores.NormalizarDataPadded | backend/utils/extratores.py:78 | surrounding blanks are ignored |
| Extratores.KeepNumeric | backend/utils/extratores.py:95 | only digits, `.` and `-` remain, and a text made of them is kept |
| Extratores.ValorText | backend/utils/extratores.py:91-95 | the cleaned text holds only digits, `.` and `-` |
| Extratores.NormalizarValor | backend/utils/extratores.py:83-103 | None gives 0.00; a number converts exactly; NaN gives Decimal NaN; a degenerate or unreadable text gives 0.00 |
| Extratores.DegenerateRejected | backend/utils/extratores.py:97-98 | "", "-", "." and "-." are not decimals |
| Extratores.NormalizarValorText | backend/utils/extratores.py:91-103 | a text gives the decimal of its cleaned form, or 0.00 |
| Extratores.NormalizarValorRoundTrip | backend/utils/extratores.py:83-103 | a formatted amount reads back exactly |
| Extratores.NormalizarTexto | backend/utils/extratores.py:106-107 | the text has no ASCII lower-case letter and no leading or trailing blank |
| Extratores.NormalizarTextoIdempotent | backend/utils/extratores.py:106-107 | normalising twice is normalising once |
| Fiscal.DropCombining | backend/services/reconciliacao_fiscal_service.py:61 | no combining mark remains, every character of the result comes from the text, and a text without combining marks comes back unchanged |
| Fiscal.DropCombiningKeeps | backend/services/reconciliacao_fiscal_service.py:61 | only combining marks are dropped: every other character of the text is in the result |
| Fiscal.LimparNome | backend/services/reconciliacao_fiscal_service.py:56-64 | a missing name gives ""; the result is single-spaced words with no combining mark, `-`, `,` or `.` |
| Fiscal.LimparNomeKeeps | backend/services/reconciliacao_fiscal_service.py:56-64 | for a present name, every character of the upper-cased, stripped and decomposed text that is not white space, a combining mark, '-', ',' or '.' is in the cleaned name ("JOSÉ-MARIA, LDA." can lose only its accent, hyphen, comma, dot and extra spaces) |
| Fiscal.Punctuate | backend/services/reconciliacao_fiscal_service.py:61-62 | after the combining marks are dropped and the punctuation rules applied, no combining mark, `-`, `,` or `.` is left, and every other character is a space or came from the decomposed text |
| Fiscal.PunctuatePointwise | backend/services/reconciliacao_fiscal_service.py:61-62 | on a decomposed text with no combining mark, ',' or '.', the rules act position by position: same length, each '-' becomes ' ' and every other character stays where it was |
| Fiscal.PunctuateKeeps | backend/services/reconciliacao_fiscal_service.py:61-62 | every character other than a combining mark, '-', ',' and '.' survives, and a '-' leaves a ' ' in the result |
| Fiscal.LimparNomeUpper | backend/services/reconciliacao_fiscal_service.py:59-63 | the cleaned name has no ASCII lower-case letter, provided its upper-cased text holds no compatibility character whose decomposition is a lower-case letter |
| Fiscal.LimparNomeOrdinal | backend/services/reconciliacao_fiscal_service.py:59-63 | "Nº" is cleaned to "No": the decomposition runs after upper-casing, so 'º' comes back as a lower-case 'o' |
| Fiscal.CleanHeader | backend/services/reconciliacao_fiscal_service.py:81-82 | a cleaned header is single-spaced with no blank at either end, and is empty only for an all-blank header |
| Fiscal.Column | backend/services/reconciliacao_fiscal_service.py:99-110 | `df[key]` finds no column exactly when none has that name, one column when exactly one has it, several otherwise |
| Fiscal.ToNumeric | backend/services/reconciliacao_fiscal_service.py:101-102 | a number is kept, and NaN or None gives a missing value |
| Fiscal.Round | backend/services/reconciliacao_fiscal_service.py:101-102 | a present value rounds to a whole number of cents within half a cent; a missing one stays missing |
| Fiscal.Amount | backend/services/reconciliacao_fiscal_service.py:101-102 | a number becomes its value rounded to cents; NaN becomes a missing value |
| Fiscal.NifText | backend/services/reconciliacao_fiscal_service.py:99 | the nif text has no blank at either end |
| Fiscal.NifDtypes | backend/services/reconciliacao_fiscal_service.py:99 | the same nif 123 reads "123" from an integer column and "123.0" from a float column, so the two sheets can disagree on a key |
| Fiscal.NumeroText | backend/services/reconciliacao_fiscal_service.py:100 | the document number has no blank at either end and no ASCII lower-case letter |
| Fiscal.NomeText | backend/services/reconciliacao_fiscal_service.py:104-112 | the name is squashed, and "" without a name column |
| Fiscal.NormalizeRow | backend/services/reconciliacao_fiscal_service.py:98-114 | every normalised row meets the shape `normalizar` promises |
| Fiscal.Required | backend/services/reconciliacao_fiscal_service.py:99-102 | the four keys are read exactly when each names one column; a missing nif raises KeyError("nif") first |
| Fiscal.Normalizar | backend/services/reconciliacao_fiscal_service.py:98-114 | normalisation succeeds exactly when each key names one column and the name column is not duplicated; it keeps the row count and gives normalised rows |
| Fiscal.MissingNif | backend/services/reconciliacao_fiscal_service.py:99 | a sheet without a nif column raises KeyError("nif") |
| Fiscal.ReconciliarFiscal | backend/services/reconciliacao_fiscal_service.py:67-174 | the AGT error is raised first, then the ledger's; otherwise the result is the four-way split of the normalised rows |
| Fiscal.Split4 | backend/services/reconciliacao_fiscal_service.py:124-158 | conciliados are all four-key pairs, divergentes_iva the three-key pairs whose IVA differs, so_agt and so_contabilidade the rows without a four-key partner; pairs come in left-major order and the rows of so_agt and so_contabilidade in increasing row order |
| FiscalProperties.ExactlyOneGroup | backend/services/reconciliacao_fiscal_service.py:124-140 | a three-key pair with both IVAs present is in exactly one of conciliados and divergentes_iva |
| FiscalProperties.NaNIvaInBoth | backend/services/reconciliacao_fiscal_service.py:133-140 | a three-key pair whose IVAs are both missing is in both groups |
| FiscalProperties.AgtCovered | backend/services/reconciliacao_fiscal_service.py:142-149 | every AGT row is either in some conciliado pair or in so_agt, never both |
| FiscalProperties.ContCovered | backend/services/reconciliacao_fiscal_service.py:151-158 | every ledger row is either in some conciliado pair or in so_contabilidade, never both |
| FiscalProperties.DuplicatesMultiply | backend/services/reconciliacao_fiscal_service.py:124-130 | when all rows share the four keys, conciliados holds every pair |
| FiscalProperties.ThreeKeySplit | backend/services/reconciliacao_fiscal_service.py:133-140 | with every AGT IVA present, the three-key pairs split exactly into conciliados and divergentes_iva |
| FiscalProperties.NameIgnored | backend/services/reconciliacao_fiscal_service.py:124-158 | rows that differ only in name give the same conciliados and divergentes_iva |
| ExtracaoDados.Either | frontend/src/utils/extracaoDados.ts:42-43 | the Title-case cell when truthy, else the upper-case cell; undefined when both are absent |
| ExtracaoDados.Amount | frontend/src/utils/extracaoDados.ts:44-46 | two falsy cells give 0; a truthy number passes through; NaN comes only from a text cell |
| ExtracaoDados.BfaColunaRow | frontend/src/utils/extracaoDados.ts:41-47 | each field reads its BFA header pair, and the balance is present |
| ExtracaoDados.ParseBfaColuna | frontend/src/utils/extracaoDados.ts:40-48 | one record per row, in order, from the BFA column headers |
| ExtracaoDados.BfaHeaderConventions | frontend/src/utils/extracaoDados.ts:40-48 | Title-case and upper-case headers give the same amounts, but a falsy date or description under a Title-case header reads undefined |
| ExtracaoDados.BaiHeaderConventions | frontend/src/utils/extracaoDados.ts:65-73 | Title-case and upper-case BAI headers give the same amounts, but a falsy "Data Valor" or description under a Title-case header reads undefined |
| ExtracaoDados.BaiLayoutsAgree | frontend/src/utils/extracaoDados.ts:65-87 | a "linha" row whose movement upper-cases to SAÍDA or ENTRADA reads as the "coluna" row with the value under Saídas or Entradas; the line layout takes its date from "Data" and the column layout from "Data Valor", so a line sheet with a "Data Valor" column gets undefined dates |
| ExtracaoDados.ParseBaiColuna | frontend/src/utils/extracaoDados.ts:65-73 | one record per row, in order, from the BAI column headers |
| ExtracaoDados.LinhaRow | frontend/src/utils/extracaoDados.ts:53-62 | a truthy number in the type cell throws TypeError; otherwise the value goes to debit or credit by the upper-cased type, and at least one of them is 0 |
| ExtracaoDados.BfaTipo | frontend/src/utils/extracaoDados.ts:54-60 | type "D" or "d" is a debit and "C" or "c" a credit |
| ExtracaoDados.UpperIsLetter | frontend/src/utils/extracaoDados.ts:54 | a type upper-cases to one letter exactly when it is that letter in either case |
| ExtracaoDados.ParseBfaLinha | frontend/src/utils/extracaoDados.ts:50-63 | every row maps, or the first failing row's TypeError is thrown |
| ExtracaoDados.ParseBaiLinha | frontend/src/utils/extracaoDados.ts:75-87 | every row maps, or the first failing row's TypeError is thrown |
| ExtracaoDados.MovimentoSpellings | frontend/src/utils/extracaoDados.ts:78-84 | "Saída" and "Entrada" match in any letter case, but "Saida" without its accent is neither |
| ExtracaoDados.BfaLayoutsAgree | frontend/src/utils/extracaoDados.ts:40-62 | a "linha" row typed D or C reads as the "coluna" row with the value in the matching column |
| ExtracaoDados.MapRows | frontend/src/utils/extracaoDados.ts:41 | `rows.map` gives one record per row, in order |
| ExtracaoDados.TryMapRows | frontend/src/utils/extracaoDados.ts:53 | a map whose callback can throw succeeds exactly when every row does, and otherwise throws the first row's error |
| ExtracaoDados.ExtrairDadosExtrato | frontend/src/utils/extracaoDados.ts:14-38 | an unknown bank throws "Banco não suportado."; the "coluna" layouts never throw; the record count is the row count |
| Numbers.Round2 | backend/services/reconciliacao_fiscal_service.py:101-102 | rounding gives a whole number of cents within half a cent |
| Dates.IsoRoundTrip | backend/utils/extratores.py:76-78 | a valid date written `yyyy-mm-dd` parses back to itself |
| Dates.DmyRoundTrip | backend/utils/extratores.py:76-78 | a valid date written `dd/mm/yyyy` parses back to itself |
| Joins.Join | backend/services/reconciliacao_fiscal_service.py:125-130 | the inner merge holds exactly the related pairs, in left-major order |
| Joins.AntiJoin | backend/services/reconciliacao_fiscal_service.py:143-149 | the left-only rows are exactly those with no related row, in order |
| Joins.FilterPairs | backend/services/reconciliacao_fiscal_service.py:140 | the filter keeps exactly the pairs that pass, in order |
| Joins.CrossProduct | backend/services/reconciliacao_fiscal_service.py:125-130 | when every pair is related, the merge has one row per pair |
| PyText.UpperIdempotent | backend/services/reconciliacao_fiscal_service.py:59 | upper-casing twice is upper-casing once |
| PyText.Squash | backend/services/reconciliacao_fiscal_service.py:63 | `" ".join(s.split())` is single-spaced and empty exactly for an all-blank text |
| PyText.SquashKeeps | backend/services/reconciliacao_fiscal_service.py:63 | `" ".join(s.split())` loses only white space: every other character of the text is in the result |

## Left out

- Reading files is not modelled. A sheet or a query result is a
  parameter. This covers `read_excel`, camelot PDF tables, `XLSX.read` and
  `sheet_to_json`, the database session, uploads and their saving.
- Writes are not modelled: the `salvar_*` functions, `processar_*` saving,
  report generation, `print` and logging.
- The output encoding is not modelled: `to_dict`, `fillna("")`,
  `where(notnull)` and `jsonable_encoder`. Results are datatypes of
  indices and records.
- `difflib.SequenceMatcher.ratio` is a parameter. Lemmas that need its
  range assume it lies in [0, 1].
- Unicode NFKD decomposition is a parameter. Combining marks are those of
  U+0300–U+036F.
- `str()` of a non-string cell (`astype(str)`) is a parameter. In the tax
  reconciliation it is one per sheet and per text column (Fiscal.Render),
  since pandas renders a number after the column's dtype.
- `pd.to_datetime(…, dayfirst=True, errors="coerce")` is a parameter
  returning one optional day per cell.
- JavaScript `parseFloat` of a text cell is a parameter.
- Floating point is modelled as exact reals, so rounding error is not
  captured.
- `round(2)` is modelled as half-to-even on exact decimals.
- Case mapping covers Latin-1 only.
- Booleans and dates as spreadsheet cells are not modelled in the front end.
- `processar_contabil` catches every exception and returns None. This
  model keeps the error value instead, and the rest of that function
  (reading and saving files) is not part of this model.
- The exception branch of `reconciliar_fiscal` only prints and re-raises.
  The model returns the error.
- `date_tolerance_days` is accepted and ignored, as in the source.
- MovementMatcher.DdVal: day numbers are bounded to the pandas timestamp
  range, so a real gap always beats the 10^6 sentinel.
- Conciliacao.ForRun: states membership, not order, of the fetched rows.
  It also assumes the tables have an `execucao_id` column. The
  `backend/models/user_model.py` of this snapshot declares no such column
  and no `ExecucaoReconciliacao` model, so the query as written would fail.
- Numbers.UnsignedDecimal: reads only digits with an optional '.', a
  subset of Python's `float()`. An exponent ("1e3"), "inf", "nan" and '_'
  separators are not literals here. So where Python reads a number,
  Reconciliador.ParseValorPtbr and Extratores.ParseValor give 0.0,
  Conciliacao.FloatOf gives ValueError and Fiscal.ToNumeric gives NaN.
- PyText.IsWordChar: Latin-1 is classified exactly. Above it, white space,
  U+0300–U+036F and the punctuation, currency, arrow, mathematical,
  technical and box-drawing blocks are not word characters. Other symbols
  and marks (CJK punctuation, emoji, other combining blocks) count as word
  characters here, although Python's `\w` excludes them.
- MovementMatcher.NormRows: `orig_index` is the row position. That holds
  for the default RangeIndex that `read_excel` gives; a frame with another
  index is not modelled.
- Joins.Join, Fiscal.Split4: pairs with duplicate keys come in left-major
  order. That is the order of inner merges from pandas 2.2 on; earlier
  versions may order them differently.
- Dates.DayField, Dates.MonthField, Dates.YearField: accept ASCII digits
  only. Python's `strptime` also accepts other Unicode decimal digits
  (Arabic-Indic, full-width), which these fields reject.
- MovementMatcher.NetAmount: states only that the result is in cents. The
  relation to debit and credit is stated by NormRow, NormalizeBank and
  NormalizeLedger.
