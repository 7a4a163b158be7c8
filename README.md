# synch_service_utils: configuration cascade and document stringifier

This project models the two pieces of `synch_service_utils/utils.py` that hold logic, and proves what they promise.

- **`load_configuration`** (module `Configuration`, file `configuration.dfy`). It builds the list of candidate
  YAML files: `$CONDA_ETC_/{name}.yml` (only when `CONDA_ETC_` is set), then `/etc/{name}.yml`, then
  `~/.config/{name}/connection.yml`. It folds every file that exists into one dict, and later files overwrite
  earlier ones. Each required field is then overridden by the environment variable
  `prefix + '_' + field.upper().replace(' ', '_')` when that variable is set. The loader raises `KeyError`
  naming every key still `None`.
  The outside world is passed in as values:
  - `files` maps each path that is an existing file to the mapping parsed from it;
  - `env` is the process environment;
  - `home` is what `~` expands to.

  `os.path.join` is modelled exactly (POSIX rules). `LoadConfiguration` is the loader written as the source
  writes it: the path list is built and then prefixed, the files are folded in a loop, and the fields are
  assigned in a loop. Its contract ties the result to the specification function `Load`. The lemmas
  describe `Load` in terms of the individual sources.
- **`_stringify_data`** (module `Documents`, file `documents.dfy`). A document is a value of a closed type:
  null, bool, int, string, ObjectId, date, datetime, list, dict, or another primitive.
  - The dict branch replaces every ObjectId with `"N/A"` and every `datetime.date` with its `str()`.
    A datetime is a date, so datetimes are converted too. The dict branch recurses into nested dicts.
  - The list branch requires every element to be a dict. It looks only at each element's top-level values.
    It converts ObjectIds and `datetime.datetime` values, leaves plain dates alone, and sends nested dicts
    through the dict branch.
  - Neither branch enters lists found inside a dict.
  - Any other argument raises `TypeError`. A list element without `items()` raises `AttributeError`.

  `StringifyMapping`, `StringifyElementValues` and `StringifyData` are the nested loops that overwrite values one key at a time.
  Their contracts tie them to the specification functions `StringifyDict` and `Stringify`.
  `str()` of a date or datetime is library behaviour: each temporal value carries the text `str()` returns
  for it.

The model follows the code in four places where the docstring says otherwise or is silent:
- The `None` check runs over every key of the merged dict, not only the required fields. A non-required key
  whose file value is null therefore makes loading fail (`UnrequiredKeyFromLastFile`).
- The loader returns every key the files define, not only the required fields (`ResolveCharacterisation`).
- The docstring names `CONDA_ENV/etc/{name}.yaml`, but the code reads `$CONDA_ETC_/{name}.yml`.
- The list branch of the stringifier tests `datetime.datetime`, not `datetime.date`. Plain dates inside list
  elements survive (`DateAsymmetry`). Both branches are modelled as written.

## Model

| member | source | states |
|---|---|---|
| `Configuration.LoadConfiguration` | synch_service_utils/utils.py:43-67 | The imperative loader returns or raises exactly `Load`: the candidate paths with `CONDA_ETC_` first, the left-to-right fold of existing files, the per-field environment override, and `KeyError` with the set of keys still `None` |
| `Configuration.Join` | synch_service_utils/utils.py:43-49 | `os.path.join(a, b)` always ends with `b`, and an absolute `b` replaces `a` entirely |
| `Configuration.EtcPathLayout` | synch_service_utils/utils.py:43 | For a relative name, the system-wide candidate is `/etc/{name}.yml` |
| `Configuration.UserPathLayout` | synch_service_utils/utils.py:44-45 | For a relative name and a home without a trailing `/`, the per-user candidate is `{home}/.config/{name}/connection.yml` |
| `Configuration.CandidatePathsLayout` | synch_service_utils/utils.py:43-49 | The candidates, lowest precedence first: `$CONDA_ETC_/{name}.yml` only when the variable is set, then `/etc/{name}.yml`, then the per-user file |
| `Configuration.MergeFilesLastWins` | synch_service_utils/utils.py:51-55 | After folding the files, a key is present exactly when some existing file defines it, and it holds the value of the last existing file that defines it |
| `Configuration.AbsentFileContributesNothing` | synch_service_utils/utils.py:52-55 | A candidate path that is not an existing file can be removed from any position of the list without changing the merged dict |
| `Configuration.ApplyEnvResolves` | synch_service_utils/utils.py:59-61 | After the field loop, the keys are the old keys plus the required fields. Each field holds its variable's value if set, else its old value, else `None`, also when a field is listed twice. Every other key is untouched |
| `Configuration.EnvVarNameCollision` | synch_service_utils/utils.py:60 | Two fields read the same environment variable exactly when they have equal length and agree character by character up to ASCII case and space versus underscore |
| `Configuration.ResolveCharacterisation` | synch_service_utils/utils.py:59-67 | Given the merged files, the load succeeds exactly when every merged key and required field settles on a non-`None` value. The result maps exactly those keys to their settled values. The error names exactly the keys that settle on `None` |
| `Configuration.LoadedValuesAreSet` | synch_service_utils/utils.py:63-67 | A successful load contains every required field, and no value in it is `None` |
| `Configuration.EnvironmentOverridesFiles` | synch_service_utils/utils.py:59-61 | A set variable for a required field wins over every file, and that field is never reported missing |
| `Configuration.UnresolvedFieldIsReported` | synch_service_utils/utils.py:59-66 | A required field that no existing candidate file defines and no variable sets makes the load raise `KeyError` naming it |
| `Configuration.UnrequiredKeyFromLastFile` | synch_service_utils/utils.py:51-67 | A key that is not required keeps the value from the last existing file that defines it. If that value is null, the load raises and names the key |
| `Configuration.EtcFileWithEnvOverride` | synch_service_utils/utils.py:13-67 | Worked case: `/etc/myservice.yml` holds host `a` and port `1`, and `MY_PORT=2` is set. Loading yields host `a` and port `2` |
| `Documents.StringifyData` | synch_service_utils/utils.py:159-183 | The imperative walk returns or raises exactly `Stringify`. The list branch covers the elements in order and fails at the first non-dict element; the dict branch follows; anything else raises `TypeError` |
| `Documents.StringifyMapping` | synch_service_utils/utils.py:172-181 | The key-by-key overwrite loop, recursing into nested dicts, produces exactly `StringifyDict` of its input |
| `Documents.StringifyElementValues` | synch_service_utils/utils.py:163-170 | The list branch's loop over one element's keys produces exactly `StringifyElement` of that element's dict |
| `Documents.FirstNonDict` | synch_service_utils/utils.py:162-163 | The index where the list branch raises `AttributeError` holds a non-dict, and every earlier element is a dict |
| `Documents.InDictMakesSafe` | synch_service_utils/utils.py:173-180 | After the dict branch, no ObjectId, date or datetime is left at any depth of nested dicts |
| `Documents.InDictFixedIffSafe` | synch_service_utils/utils.py:173-180 | The dict branch leaves a value unchanged exactly when it contains no ObjectId, date or datetime reachable through dicts |
| `Documents.InDictIdempotent` | synch_service_utils/utils.py:173-180 | Applying the dict-branch conversion twice gives the same result as applying it once |
| `Documents.InDictSameShape` | synch_service_utils/utils.py:173-180 | The dict branch keeps every key, nested dict and list. It changes only ObjectIds (to `"N/A"`) and dates and datetimes (to their text) |
| `Documents.InListElementMakesSafe` | synch_service_utils/utils.py:163-170 | After the list branch, an element has no ObjectId or datetime at its top level, and its nested dicts hold nothing unsafe |
| `Documents.InListElementFixedIffSafe` | synch_service_utils/utils.py:163-170 | The list branch leaves a top-level value unchanged exactly when nothing it converts is left in it |
| `Documents.StringifySameShape` | synch_service_utils/utils.py:159-181 | On success the result keeps the argument's shape: same kind, same list length and order, same keys at every dict level, and equal non-special leaves |
| `Documents.StringifyMakesSafe` | synch_service_utils/utils.py:159-181 | On success nothing is left that the branch taken would convert |
| `Documents.StringifyIdempotent` | synch_service_utils/utils.py:159-181 | Stringifying the result of a successful call succeeds and changes nothing |
| `Documents.StringifyErrors` | synch_service_utils/utils.py:159-183 | `TypeError` is raised exactly for an argument that is neither a list nor a dict. `AttributeError(i)` is raised exactly when element `i` of a list argument is the first element that is not a dict |
| `Documents.DateAsymmetry` | synch_service_utils/utils.py:159-181 | A plain date under a dict argument becomes its text. The same date inside a list element is left as it is |
| `Documents.DocumentExample` | synch_service_utils/utils.py:172-181 | Worked case: `{_id: ObjectId, ts: datetime, name: "x"}` becomes `{_id: "N/A", ts: <text of ts>, name: "x"}` |

## Left out

- `db_connect` (utils.py:70-100): a wrapper around a network database client. It also refers to `motor`, which is never imported.
- `load_schemas` (utils.py:103-111): opens packaged resource files and parses them as JSON through libraries.
- `_unpack_params` (utils.py:114-128): a web-framework type check plus JSON decoding of the first query key.
- `_return2client` (utils.py:131-142): JSON encoding and a socket write. Its call to `_stringify_data` is what `Documents` models.
- `setup.py`: packaging metadata.
- YAML parsing: each existing file is given already parsed, as a mapping from string keys to a string or null. A file whose YAML is empty or a scalar (where `update` raises) is not modelled, nor one holding a sequence of key/value pairs (which `update` merges). Non-string keys and non-string scalar values are not modelled either.
- `os.path.isfile`, `open`, `os.path.expanduser` and `os.environ`: these are the `files`, `home` and `env` parameters. A file that exists but cannot be read is not modelled.
- `logger.debug` after each merged file: diagnostic output only.
- Configuration.EnvVarName: upper-cases ASCII letters only. Python's full Unicode case mapping, which can also change a string's length, is not modelled.
- Configuration.LoadConfiguration: the `KeyError` carries the set of missing keys. The order in which Python's dict lists them, and the message text, are not modelled; nor is the insertion order of the dict the loader returns or of the dicts the stringifier returns, since the model's maps are unordered.
- Documents.StringifyData: models the walk on values. Python updates the dicts in place and returns the same object, so every alias of a nested dict sees the change, and a dict that contains itself recurses without end. Neither is captured.
- Documents.StringifyData: when the list branch raises `AttributeError`, the elements before the failing one have already been converted in place. The model returns only the error.
- Documents.StringifyData: only dicts have `items()` here. A list element that is some other mapping-like object is not modelled.
- The text of `str()` for dates and datetimes, and the internals of `ObjectId`: library behaviour, represented by the text each value carries.
