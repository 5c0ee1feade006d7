# Risk-assessment app core, modelled in Dafny

This project models the non-UI core of a Streamlit app. A vision-capable LLM
crew writes a safety risk assessment of a construction-site photo as numbered
Markdown items, and the app turns it into a Markdown table. The core modelled
here has five parts:

- **Report parsing and rendering** (`utils/functions.py`).
  - `parse_data` runs one DOTALL regex over the LLM's text with `re.finditer`.
    It folds the matches into entries with four fields: 번호 (number),
    위험 요소 (risk factor), 위험 등급 (risk grade) and 위험 감소 조치
    (mitigation measures).
  - `json_to_md_table` prints the entries as a table.
  - `parse2chart` chains the two.
  - `get_args` flattens a dict of lists.
- **The model table** (`api/models.py`).
  - `COMMERCIAL_MODELS` lists the model names of each provider.
  - `get_company_name` finds the provider of a model name.
  - `get_model` describes the LLM to build, and rejects the open-source entry.
- **The key registry** (`api/registry.py`).
  - `API_KEY_REGISTRY` is a module-level dict.
  - The `register_api_key` wrapper writes `api_key` into it under the model
    name given as `select_model`.
  - `get_api_key` reads it under `<COMPANY>_API_KEY`.
- **Session logic** (`utils/components.py`).
  - `login` is a small state machine over `logged_in` and `username`.
  - `select_model` is a chain of early returns. It decides where the
    provider's key comes from: the secrets of a logged-in user, the
    environment, the session registry, or the key the user types.
- **Log files** (`utils/logs.py`).
  - The size limit is computed from a factor in (0, 1] of 100 MiB.
  - A wrapped `emit` rolls `<log>`, `<log>.1` … `<log>.5` over before it
    writes to a log file that has reached the limit.

## How the model is built

- **Modules.**
  - `Wrappers` and `Kwargs` hold `Option`, `Result` and Python keyword values.
  - `Text` covers Python string behaviour on ASCII: `isspace`, `isdigit`,
    `strip`, `int()`, `str()`, `upper`, `join`.
  - `ReportPattern` models the regex, `ReportParser` the fold, the table and
    `get_args`.
  - `Models`, `Registry`, `Components` and `Logs` cover the other four parts.
- **Regex semantics.** `ReportPattern` writes out the backtracking semantics of
  `re.finditer` for the pattern at `utils/functions.py:44`:
  - greedy `\d+` and `\s+`, and the lazy `.+?` groups;
  - the lookahead `(?=\n\d+\.\s+\*\*|$)`, where `$` also holds just before a
    final newline;
  - a whitespace run that reaches the end of the text gives one character back
    to the content.
- **Loops become methods proved against functions.**
  - `ParseData` and `JsonToMdTable` are proved against `Parse` and `Rows`, and
    `Parse2Chart` composes them.
  - The properties are lemmas about those functions.
- **State becomes classes.** Objects whose state changes become classes:
  - `Registry.ApiKeyRegistry` holds `API_KEY_REGISTRY`;
  - `Components.Session` holds `logged_in`, `username` and the session's
    `API_KEY_REGISTRY`;
  - `Logs.LogFiles` holds the log directory, a map from suffix to file
    contents with 0 for the log file itself;
  - `Logs.LoggerSetup` holds `MAX_LOG_SIZE`.
- **What becomes a parameter.** Everything that is I/O or comes from Streamlit
  is a parameter:
  - the credentials table, `st.secrets["api_keys"]` and `os.environ`;
  - whether Streamlit is running;
  - the form fields and buttons, and the typed key;
  - the formatted log record, as bytes.
- **Messages become outcomes.** The sidebar messages of `select_model` are an
  `Outcome` value.
- **Raised exceptions become `Failure` results:**
  - the `ValueError` of `int()` in `parse_data`;
  - the `ValueError` of `get_company_name`;
  - the `NotImplementedError` of `get_model`;
  - the `ValueError` of `_calculate_max_log_size`.

### Behaviour of the code that the model keeps

- **Entry 0 is dropped.** An entry numbered 0 is never stored, because
  `if current_entry["번호"]` (`utils/functions.py:55` and `:68`) is false for 0
  (`ReportParser.ParseNumbers`).
- **A bad grade raises.** A 위험 등급 content that is not an integer literal makes
  `int(content)` (`utils/functions.py:62`) raise `ValueError`, which leaves
  `parse_data`; the entry is not skipped (`ReportParser.ParseFailsOnValueError`).
- **The digit limit of `int()`.** CPython's `int()` converts at most 4300
  digits by default (`sys.get_int_max_str_digits()`; underscores are not
  counted). A numeric label (`int(section)`, `utils/functions.py:58`) or a grade
  with more digits raises `ValueError` as well. `Text.MaxStrDigits` is that
  default.
- **The key-source order.** `select_model` tries the sources in the order of
  its own numbered comments (`utils/components.py:120-157`):
  1. a logged-in user's secret;
  2. under Streamlit, the environment, which overwrites a registered key;
  3. the registry;
  4. the prompt.

  A logged-in user who is not in the credentials stops the chain with a
  warning and no key (`utils/components.py:130-132`).
- **Registry reads and writes.** The registry wrapper writes under the model
  name (`api/registry.py:22`), but `get_api_key` reads under
  `<COMPANY>_API_KEY` (`api/registry.py:39`). No listed model name ends in `Y`,
  so a registration through the wrapper is never visible to `get_api_key`
  (`Registry.RegisterIsInvisibleToGetApiKey`).
- **`USER_CREDENTIALS`.** `utils/components.py:7` imports `USER_CREDENTIALS`
  from `api/registry.py`, which does not define it. The model takes the
  credentials table as a parameter.

## Model

| member | source | states |
|---|---|---|
| Kwargs.Get | api/registry.py:17-18 | `kwargs.get(name)` is the passed value for a keyword that was passed, and `None` for one that was not |
| Text.SpaceRunEnd | utils/functions.py:44 | a greedy `\s+` stops at the end of the text or at the first non-whitespace character |
| Text.SpaceRun | utils/functions.py:44 | every character a whitespace run covers is whitespace |
| Text.SpaceRunEndAt | utils/functions.py:44 | a whitespace run ends at the first non-space that follows only whitespace |
| Text.SpaceRunEndShift | utils/functions.py:65 | a whitespace run is found the same way after any prefix |
| Text.DigitRunEnd | utils/functions.py:44 | a greedy `\d+` stops at the end of the text or at the first non-digit |
| Text.DigitRun | utils/functions.py:44 | every character a digit run covers is a digit |
| Text.Strip | utils/functions.py:51-52 | `strip()` leaves no whitespace at either end and never lengthens the text |
| Text.StripIsSlice | utils/functions.py:51-52 | `strip()` returns a slice of its input, with only whitespace cut off before and after it |
| Text.StripEmpty | utils/functions.py:66 | a stripped measure is empty exactly when the piece was all whitespace, which is the filter `if measure.strip()` |
| Text.NatToString | utils/functions.py:80 | `str(n)` is all digits, has no leading zero, and reads back as `n` |
| Text.IntToString | utils/functions.py:80 | `str(i)` is the decimal digits of `i`, with a minus sign first exactly when `i` is negative, and never a leading zero except for `0` itself |
| Text.RemoveUnderscores | utils/functions.py:62 | removing `_` never lengthens the text and leaves no `_`; from a literal body it leaves only digits; a text without `_` is unchanged |
| Text.RemoveUnderscoresAppend | utils/functions.py:62 | removing `_` works piece by piece, so every other character is kept, in order |
| Text.ParseInt | utils/functions.py:58-62 | `int()` fails exactly when the stripped text is no integer literal (an optional sign, then digits with single `_` between digits) or has more than 4300 digits; a negative result needs a leading minus |
| Text.ParseIntOfBody | utils/functions.py:62 | `int()` of a stripped literal body is the value of its digits without the underscores, or fails beyond 4300 digits |
| Text.NatToStringIsIntBody | utils/functions.py:62 | a printed number is a valid literal body for `int()`, already stripped, with no underscores |
| Text.ParseIntOfDigits | utils/functions.py:62 | `int()` of a plain digit string of at most 4300 digits is its decimal value |
| Text.ParseIntOfNegated | utils/functions.py:62 | `int()` of a minus sign before a digit string of at most 4300 digits is the negated value |
| Text.ParseIntTooLong | utils/functions.py:58 | `int()` of more than 4300 digits raises |
| Text.ParseIntOfIntToString | utils/functions.py:62 | `int(str(i)) == i` for every integer of at most 4300 digits: a grade printed in the table reads back unchanged |
| Text.DigitsUnderscoreDigits | utils/functions.py:62 | two digit runs joined by `_` form a stripped literal body whose digits are the two runs |
| Text.ParseIntIgnoresUnderscore | utils/functions.py:62 | an underscore between two digit runs does not change what `int()` gives |
| Text.Upper | api/registry.py:39 | `upper()` keeps the length and upper-cases each ASCII letter in place |
| Text.Join | utils/functions.py:79 | `sep.join(xs)` is empty for no items; otherwise it starts with the first item and is as long as the items plus one separator between each two |
| Text.JoinSnoc | utils/functions.py:79 | each further item follows the items before it after exactly one separator, so with the first item the join is fixed: the measures appear in order, `<br>` between each two |
| ReportPattern.ContentEnd | utils/functions.py:44 | the lazy content group ends inside the text, at or after where it may first end |
| ReportPattern.ContentEndIsFirst | utils/functions.py:44 | the lazy content ends at the first position where the lookahead (the next numbered item or the end) holds |
| ReportPattern.BodyAt | utils/functions.py:44 | after `**:` a body matches exactly when whitespace follows and, if the whitespace reaches the end of the text, at least two characters remain |
| ReportPattern.BodyAtShape | utils/functions.py:44 | a body is whitespace, then content up to the first position where the lookahead holds |
| ReportPattern.SectionEnd | utils/functions.py:44 | the lazy section ends where `**:` and a matching body follow |
| ReportPattern.SectionEndIsFirst | utils/functions.py:44 | the section is the shortest one that lets the rest of the pattern match, and there is no match when none does |
| ReportPattern.HeadAt | utils/functions.py:44 | the head `\d+\.\s+\*\*` ends after a non-empty digit run and leaves room for the rest of the pattern |
| ReportPattern.PlanAt | utils/functions.py:44 | the head and the lazy section end in order, and the section is closed by `**:` and a body that matches |
| ReportPattern.MatchAt | utils/functions.py:44 | a match consumes input, and its number is all digits while its section and content are non-empty |
| ReportPattern.MatchAtBody | utils/functions.py:44 | a match ends where the body after its section ends, and its content is that body's content |
| ReportPattern.MatchContentEnds | utils/functions.py:44 | the content ends where the match ends, at the first position where the lookahead holds, so unnumbered lines are absorbed into it |
| ReportPattern.FindAll | utils/functions.py:45 | every match `finditer` yields has a numeric number group and non-empty section and content |
| ReportPattern.Spans | utils/functions.py:45 | each match `finditer` yields lies inside the scanned text, from the scan's start on |
| ReportPattern.SpansMatch | utils/functions.py:45 | the i-th match yielded is the pattern tried at the i-th span's start, and ends at that span's end |
| ReportPattern.SpansOrdered | utils/functions.py:45 | the matches are yielded at increasing positions and do not overlap |
| ReportPattern.SpansSkipNoMatch | utils/functions.py:45 | no match starts at a position the scan passed over outside every yielded match |
| ReportParser.LabelNumber | utils/functions.py:54-58 | a match opens an entry exactly when its stripped section is all digits |
| ReportParser.SeparatorEnd | utils/functions.py:65 | a measure separator starts with a newline, consumes at least that character, and stops at the end of the text or before a non-space |
| ReportParser.SeparatorMatches | utils/functions.py:65 | a separator matches exactly where a newline, then whitespace, then a `-` follow |
| ReportParser.SeparatorConsumes | utils/functions.py:65 | a separator consumes the newline, the whitespace, the `-` and all the whitespace after it |
| ReportParser.SplitFrom | utils/functions.py:65 | `re.split` always returns at least one piece; SplitNoSeparator and SplitFirstSeparator fix the pieces for every text |
| ReportParser.SplitNoSeparator | utils/functions.py:65 | where no separator starts anywhere, the text is its only piece |
| ReportParser.SplitFirstSeparator | utils/functions.py:65 | at the first position where a separator starts, the text before it is the first piece and the text after the separator is split on its own, for any spacing around the `-` and any earlier newlines |
| ReportParser.SplitFromSuffix | utils/functions.py:65 | a piece opened after a separator is split as the text from there on |
| ReportParser.KeepNonBlank | utils/functions.py:66 | the kept measures are non-empty and stripped, and there are no more of them than pieces |
| ReportParser.KeepNonBlankSingle | utils/functions.py:66 | one piece is kept, stripped, exactly when it is not blank |
| ReportParser.KeepNonBlankAppend | utils/functions.py:66 | the filter works piece by piece and keeps the order of the pieces |
| ReportParser.SplitMeasures | utils/functions.py:63-66 | every stored 위험 감소 조치 item is non-empty and stripped |
| ReportParser.SplitWithoutNewline | utils/functions.py:65 | `re.split` on a text without a newline returns the text as its only piece, a case of SplitNoSeparator |
| ReportParser.OneLineMeasures | utils/functions.py:63-66 | a one-line 위험 감소 조치 becomes one stripped measure, or none when it is blank |
| ReportParser.SeparatorEndShift | utils/functions.py:65 | a separator is recognised the same way after any prefix |
| ReportParser.SplitFromShift | utils/functions.py:65 | the split of a text after a prefix, scanned from past the prefix, is the split of the text alone |
| ReportParser.SplitFromSkip | utils/functions.py:65 | the scan passes over a stretch where no separator starts and the current piece stays open |
| ReportParser.BulletSeparator | utils/functions.py:65 | a newline, `-` and space before non-space text form one separator that ends where the text starts |
| ReportParser.SplitAfterBullet | utils/functions.py:65 | a line followed by a `- ` bullet line is the first piece, and the text after the bullet is split on its own, a case of SplitFirstSeparator |
| ReportParser.SplitMeasuresAfterBullet | utils/functions.py:65-66 | a bullet line adds its own measure, when not blank, before the measures of the lines after it |
| ReportParser.Step | utils/functions.py:51-66 | one loop turn raises exactly on a match that makes `int()` raise, with that error; otherwise the stored entries only grow, and at most one more entry will be stored |
| ReportParser.Run | utils/functions.py:50-66 | the loop never changes or removes a stored entry, and each match adds at most one entry to what will be stored |
| ReportParser.Finish | utils/functions.py:68-69 | after the loop the open entry is appended, last, exactly when its number is truthy |
| ReportParser.Parse | utils/functions.py:42-71 | `parse_data` returns at most one entry per match |
| ReportParser.ParseData | utils/functions.py:42-71 | the loop over the matches computes `Parse` of the `finditer` matches, returning at the first match on which `int()` raises |
| ReportParser.RunAppend | utils/functions.py:50-66 | the loop over two runs of matches is the loop over the first, continued from its state over the second |
| ReportParser.Numbers | utils/functions.py:48 | there is one number per entry |
| ReportParser.StepNumbers | utils/functions.py:54-66 | a numeric label stores the open entry when its number is truthy and opens a new one; any other label keeps the stored entries and the open number |
| ReportParser.RunNumbers | utils/functions.py:50-69 | the loop keeps only numbered entries, and the numbers kept grow by the non-zero numeric labels met |
| ReportParser.ParseNumbers | utils/functions.py:42-71 | every returned entry has a truthy number, and the numbers are the non-zero numeric labels in text order |
| ReportParser.FirstRaise | utils/functions.py:58-62 | the index of a match on which `int()` raises: a numeric label of more than 4300 digits or a 위험 등급 content `int()` rejects |
| ReportParser.FirstRaiseIsFirst | utils/functions.py:50-62 | no match before the one `FirstRaise` finds makes `int()` raise, and none at all when it finds none |
| ReportParser.RunError | utils/functions.py:50-66 | the loop fails exactly when some match makes `int()` raise, and the first such match gives the error |
| ReportParser.ParseFailsOnValueError | utils/functions.py:58-62 | `parse_data` raises exactly when some numeric label has more than 4300 digits or some 위험 등급 content is not an integer literal `int()` accepts, and the first such match gives the error |
| ReportParser.RunSingle | utils/functions.py:50 | the loop over one match is one step |
| ReportParser.OpenEntryFields | utils/functions.py:54-66 | the open entry has the last numeric label's number and, for each field, the content of the last match with that label since then: later fields overwrite earlier ones |
| ReportParser.RunPreamble | utils/functions.py:48-66 | matches before the first numeric label never fail, store nothing and leave the number unset |
| ReportParser.ParseIgnoresPreamble | utils/functions.py:48-69 | fields given before the first numeric label never reach the output |
| ReportParser.RunIgnoresNumberGroup | utils/functions.py:50-53 | the loop reads only the section and content groups |
| ReportParser.ParseIgnoresNumberGroup | utils/functions.py:44-71 | the `N.` prefix of an item never influences the result; only the bold label counts |
| ReportParser.JsonToMdTable | utils/functions.py:74-82 | the table is the header line, the rule line, and then one row per item in input order |
| ReportParser.Row | utils/functions.py:80 | a row starts with `|` and ends with `|` and a line break |
| ReportParser.Rows | utils/functions.py:78-80 | the rows are empty exactly for no items, and otherwise end in a line break |
| ReportParser.RowsSnoc | utils/functions.py:78-80 | each turn of the loop appends the next item's row |
| ReportParser.RowsAppend | utils/functions.py:78-80 | the rows of two lists of items are the rows of the first followed by the rows of the second |
| ReportParser.RowsSingle | utils/functions.py:80 | one item gives exactly its row |
| ReportParser.RowAt | utils/functions.py:78-80 | the row of item `k` comes exactly after the rows of the items before it |
| ReportParser.JoinSingleLine | utils/functions.py:79 | joining single-line measures with `<br>` gives a single line |
| ReportParser.RowIsOneLine | utils/functions.py:80 | a row whose fields hold no line break is one line ending in a newline |
| ReportParser.OneLine | utils/functions.py:75-76 | a header line is one line |
| ReportParser.TableLines | utils/functions.py:74-82 | when no field holds a line break, the table has exactly two lines more than there are items, and it ends in a newline |
| ReportParser.Parse2Chart | utils/functions.py:85-97 | a text gives the table of its parsed entries, or the parser's error when parsing raises |
| ReportParser.GetArgs | utils/functions.py:10-11 | the flattened list has the total length of the lists, and holds exactly the items of some list |
| ReportParser.GetArgsSingle | utils/functions.py:10-11 | one keyword gives its value list unchanged, order and repeats included; with GetArgsAppend this fixes the whole result |
| ReportParser.GetArgsAppend | utils/functions.py:10-11 | flattening keeps the dict's order: the lists of a dict's first part come first |
| Models.Companies | api/models.py:57 | `COMMERCIAL_MODELS.keys()` has one key per provider, the providers in table order |
| Models.AllModels | api/models.py:8-21 | the flattened table has six names, the open-source model first, and holds exactly the names some provider lists |
| Models.FirstOwner | api/models.py:36-38 | the loop stops at the first provider, in dict order, whose list holds the name, or finds none |
| Models.GetCompanyName | api/models.py:23-39 | fails with `ValueError` exactly when no list holds the name; otherwise returns a provider whose list holds it |
| Models.ModelListsDisjoint | api/models.py:8-21 | no model name is listed under two providers |
| Models.OwnerIsUnique | api/models.py:23-39 | the provider returned is the one provider that lists the name |
| Models.ListedModelsResolve | api/models.py:23-39 | every name of the flattened table resolves to a provider that lists it |
| Models.ResolvesOnlyListed | api/models.py:23-39 | a name resolves exactly when it is in the flattened table: there is no default provider |
| Models.ResolvedCompanyIsKey | api/models.py:57 | a resolved provider is always a key of the table, so the last `else` of `get_model` is dead |
| Models.GetModel | api/models.py:42-62 | an unknown name raises the lookup error; the open-source model raises `NotImplementedError`; any other listed model builds an LLM of that name, with `api_key` exactly when it was passed |
| Models.OpensourceNotSupported | api/models.py:55-56 | `get_model` never builds the open-source model |
| Models.CommercialModelsBuild | api/models.py:55-60 | every listed commercial model builds an LLM of that name |
| Registry.KeyNameEndsInY | api/registry.py:39 | every `<COMPANY>_API_KEY` name ends in `Y` |
| Registry.KeyName | api/registry.py:39 | the key name is the provider name upper-cased character by character, followed by `_API_KEY` |
| Registry.ModelNamesDoNotEndInY | api/models.py:8-21 | no listed model name ends in `Y` |
| Registry.ModelNameIsNoKeyName | api/registry.py:21-22 | a listed model name is never a `<COMPANY>_API_KEY` name |
| Registry.ApiKeyFor | api/registry.py:29-39 | `get_api_key` raises exactly when `get_company_name` does; otherwise it returns the entry under the provider's key name, or `None` |
| Registry.Registered | api/registry.py:17-22 | when both keywords are truthy, the wrapper adds or replaces exactly the entry under `select_model`, with `api_key`; otherwise the registry is unchanged |
| Registry.ApiKeyRegistry.constructor | api/registry.py:5 | the registry starts empty |
| Registry.ApiKeyRegistry.Register | api/registry.py:17-22 | the wrapper stores `api_key` under `select_model` when both keywords are truthy, and otherwise changes nothing |
| Registry.ApiKeyRegistry.Wrap | api/registry.py:15-25 | the wrapper registers first, then returns what the wrapped function returns for the same arguments |
| Registry.ApiKeyRegistry.GetApiKey | api/registry.py:29-39 | `get_api_key` on the current registry |
| Registry.RegisterChangesOneEntry | api/registry.py:21-22 | a registration changes no entry except the one under `select_model` |
| Registry.ReRegisterOverwrites | api/registry.py:21-22 | registering the same model again keeps only the last key |
| Registry.RegisterIsInvisibleToGetApiKey | api/registry.py:15-39 | a registration under a listed model name never changes what `get_api_key` returns, for any model |
| Registry.GetApiKeyReadsKeyName | api/registry.py:39 | a key stored under the provider's key name is what `get_api_key` returns |
| Components.Session.constructor | utils/components.py:15-16 | a new session is logged out, with no user and an empty registry |
| Components.Resolve | utils/components.py:105-160 | an outcome that reports a key leaves a non-empty key under the provider's key name and changes no other entry; every other outcome leaves the registry; the model is reported invalid exactly when it is unlisted |
| Components.LoginStep | utils/components.py:57-85 | a logged-in session makes `login` return true; a logged-out one returns whether it logs in, which needs a submitted form whose name and password match, and then stores that name; a logout clears the user |
| Components.Session.Login | utils/components.py:42-85 | `login` follows `LoginStep`; it never touches the key registry |
| Components.Session.SelectModel | utils/components.py:93-160 | `select_model`, with its early returns, gives the outcome and the registry of `Resolve`; the login state is untouched |
| Components.DecoratedSelectModel | utils/components.py:93-94 | calling the decorated `select_model` registers its keywords in the module registry, then runs the body on the session; the login state is untouched |
| Components.OpensourceLeavesRegistry | utils/components.py:106-108 | the open-source model returns at once, leaving the registry untouched |
| Components.UnlistedIsInvalid | utils/components.py:159-160 | a name outside the flattened table is reported invalid, and nothing is written |
| Components.OnlyKeyNameWritten | utils/components.py:118-157 | only the entry under the provider's `<COMPANY>_API_KEY` can change; nothing changes for an unlisted model |
| Components.SecretTierWins | utils/components.py:121-129 | a known logged-in user with a secret gets it, whatever the environment, the registry or the prompt hold |
| Components.UnknownUserStops | utils/components.py:121-132 | a logged-in user missing from the credentials stops the chain, and nothing is written |
| Components.KnownUserWithoutSecretFallsThrough | utils/components.py:121-132 | a known user without a secret is treated exactly like a session that is not logged in |
| Components.EnvOverridesRegistry | utils/components.py:135-140 | under Streamlit a non-empty environment key wins and overwrites any stored key |
| Components.StoredKeyKept | utils/components.py:143-146 | without a secret or an environment key, a stored key is used as it is |
| Components.PromptedKey | utils/components.py:149-157 | otherwise a non-empty typed key is stored, and an empty one stores nothing and asks again |
| Components.UsableKeyStored | utils/components.py:121-157 | every outcome that reports a usable key leaves a non-empty key under the provider's key name |
| Components.KeysStayNonEmpty | utils/components.py:121-157 | only non-empty keys are written, so a registry of non-empty keys stays one |
| Components.SelectModelIdempotent | utils/components.py:93-160 | a second `select_model` in the same environment leaves the registry as the first left it |
| Components.LoginKeepsValid | utils/components.py:57-85 | a logged-in session always names a user of the credentials; a submitted form logs in exactly when name and password match; a failed submit clears the user |
| Components.LogoutResets | utils/components.py:58-63 | when logged in, `login` returns true, and the logout button clears both fields |
| Logs.CalculateMaxLogSize | utils/logs.py:68-83 | fails exactly when the factor is outside (0, 1]; otherwise the size is `int(100 MiB × factor)`, at most 100 MiB |
| Logs.MaxLogSizeExamples | utils/logs.py:81-83 | factor 1.0 gives 104857600 bytes, and the default 0.8 gives 83886080 |
| Logs.MaxLogSizeMonotonic | utils/logs.py:81-83 | a larger factor never gives a smaller limit |
| Logs.Shift | utils/logs.py:160-163 | renaming `.i` to `.(i+1)` replaces that file with `.i` and removes `.i`; nothing happens when `.i` is absent; no other file changes |
| Logs.ShiftDown | utils/logs.py:157-163 | the backup loop creates no file other than `.2` to `.(n+1)` |
| Logs.Rollover | utils/logs.py:149-169 | after a rollover the log file exists and is empty, and no suffix above `BACKUP_COUNT` is created |
| Logs.ShiftDownAt | utils/logs.py:157-163 | the backup loop moves `.j` to `.(j+1)` for each existing `.j` from the top down; it empties `.1`, and `.(n+1)` keeps its own file only when there was no `.n` |
| Logs.RolloverAt | utils/logs.py:149-169 | after a rollover the log file is empty; `.1` is the old log file; `.j` is the old `.(j-1)`; `.5` is the old `.4` when there was one; all else is untouched |
| Logs.RolloverKeepsBackupCount | utils/logs.py:157-163 | a rollover never creates a suffix above `BACKUP_COUNT` |
| Logs.EmitBelowLimit | utils/logs.py:143-146 | below the limit, `emit` appends the record to the log file and leaves every backup as it was |
| Logs.EmitAtLimit | utils/logs.py:143-146 | at the limit, the record starts a fresh log file and the full one becomes `.1` |
| Logs.EmitBoundsLogFile | utils/logs.py:143-146 | the log file never exceeds the limit by the size of a whole record or more |
| Logs.AfterEmit | utils/logs.py:143-146 | after `emit` the log file ends with the record, and no suffix above `BACKUP_COUNT` is created |
| Logs.LogFiles.constructor | utils/logs.py:125 | opening the handler creates an empty log file when there is none, and changes nothing else |
| Logs.LogFiles.Remove | utils/logs.py:162 | `os.remove` deletes exactly that file |
| Logs.LogFiles.Rename | utils/logs.py:163 | `os.rename` moves a file's contents to the new name, replacing the file there |
| Logs.LogFiles.DoRollover | utils/logs.py:149-169 | the loop of renames, then the final rename and the reopen, give `Rollover` of the old directory |
| Logs.LoggerSetup.constructor | utils/logs.py:46-51 | the limit is stored, and a fresh file handler opens the log file |
| Logs.LoggerSetup.SetMaxLogSize | utils/logs.py:105-116 | the setter stores the new limit, or raises and keeps the old limit |
| Logs.LoggerSetup.Emit | utils/logs.py:143-147 | the wrapped `emit` rolls over when the log file has reached the current limit, then appends the record |
| Logs.NewLoggerSetup | utils/logs.py:26-51 | construction fails exactly on a factor outside (0, 1]; otherwise the limit is that factor's size |

## Left out

- Streamlit UI calls are not modelled: page layout, sidebar messages, widgets and `st.stop`. The messages of `select_model` are the `Outcome` values. The `st.stop()` branch of `login` is dead and is left out.
- `page_config`, `image_handler`, `task_handler`, `extract_caption`, `get_image_path` and `is_streamlit_running` are not modelled; they are I/O. Whether Streamlit is running is a parameter.
- `parse2chart` on a non-string input is not modelled. That path calls `json.dumps` or `str` on the crew output, a foreign object.
- Unicode is not modelled: `str.isdigit`, `str.isspace`, `\d`, `\s`, `int()` and `upper()` are modelled on ASCII. Unicode digits and spaces, and case mappings beyond a-z, are left out.
- ReportParser.ParseData is proved only for text input. Bytes input, allowed by the `isinstance(text, (str, bytes))` check, is left out.
- Text.ParseInt models CPython's default digit limit of 4300. A limit changed with `sys.set_int_max_str_digits` is not modelled.
- ReportParser.JsonToMdTable does not model the `ValueError` that `str()` raises on an integer of more than 4300 digits. Entries built by `parse_data` never hold one, because `int()` refused it first.
- Text.ParseInt does not model `int()`'s other accepted forms. Full-width digits and other Unicode digits are not accepted.
- ReportParser.TableLines holds only for entries whose factor and measures hold no line break. A field with a newline spreads a row over several lines, and the model does not count those.
- ReportParser.JsonToMdTable does not model the `.get(…, default)` defaults. Every entry `parse_data` builds has all four keys, so the defaults are never used.
- Logs.CalculateMaxLogSize models the product as an exact real, not a binary float. Rounding of the product, and `NaN` or infinite factors, are left out.
- `MaxLogSizeExamples` gives exact results for 1.0 and 0.8. The binary-float products for these two factors round to the same integers, but that is not proved.
- Logs.LoggerSetup.Emit takes the already formatted record as bytes. Formatting, the timestamp, the `utf-8-sig` byte-order mark and the stream handler are left out.
- Logs.LogFiles does not model failures of `os.rename` and `os.remove`, or files changed concurrently by other processes.
- Logger naming is not modelled: `_get_caller_name`, the date-based file name and `os.makedirs` are left out.
- Registry.ApiKeyRegistry.Wrap takes the wrapped function as a pure function of its arguments. Its side effects and exceptions are left out. The registration happens before the call in any case.
- Components.Session.SelectModel does not model the `except ValueError` branch around `get_company_name`. It is unreachable, because every name of the flattened table resolves (`Models.ListedModelsResolve`).
- Components.Session.SelectModel does not model the `"default"` fallback of `st.session_state.get("username", "default")`. `login` always sets `username` together with `logged_in`, so the fallback cannot occur.
- Missing secrets are not modelled: a missing `st.secrets["api_keys"]` table is taken as present. A missing table raises `KeyError` in the source.
- `load_dotenv()` is not modelled. The environment is a parameter.
- The crews and the LLM calls (`crews/`, `utils/crews.py`, `utils/modules.py`, `app.py`) are not part of this model.
