# Active Response limit manager, modelled in Dafny

`ActiveResponseManager` (`api_func.py`) keeps the configuration document
`ar_limit_conf.yaml` in memory. Its `active-response` section holds a
`global-limit` and a `custom-limit` mapping from Active Response command names
to limits. On construction the manager loads the document. It takes the global
limit from the document, or 200 when the document gives none. It then reads the
commands listed in `ar.conf` and adds every command that `custom-limit` lacks
at the global limit. Afterwards it offers three operations:
- a filtered read of the limits;
- an update of the limits of commands already present;
- an update of the global limit.

Each mutating operation ends by writing the whole document back. When the
document has no `active-response` section, the assignment into it raises
`KeyError`. The operation catches it, so the document stays as it was and
nothing is written. A document without an `active-response` section
therefore gets no commands from `ar.conf` and is never written
(`Config.Synced`, `Manager.ActiveResponseManager.SyncCommands`).
`update_command_limits` accepts any value and returns nothing.

The project has five modules:

- `Wrappers` (`wrappers.dfy`): `Option`, standing for a dictionary key that may be absent.
- `Text` (`text.dfy`): the Python string operations the filter uses.
  These are `str.isspace`, `str.strip()`, `str.find`, `str.split(' - ')` and
  `str.endswith`. `Strip`, `Find` and `Split` carry contracts about the
  whitespace, occurrences and fields they produce, and lemmas relate the
  number of fields of a split to the separators in the text.
- `ArConf` (`ar_conf.dfy`): the per-line test of `read_ar_conf` and the set of
  commands it collects from the lines of `ar.conf`.
- `Config` (`config.dfy`): the document, a value of type
  `Option<Section>` (`None` when there is no `active-response` key). It also
  holds the pure effect of each operation on the document, with the properties
  of that effect.
- `Manager` (`manager.dfy`): the class `ActiveResponseManager`. Its fields are
  `yamlData`, `globalLimit` and `written`, the log of documents
  `write_yaml` has saved. Its methods run the loops of the source.
  `SyncCommands`, `UpdateCommandLimits` and `UpdateGlobalLimit` are proved
  against the matching `Config` function, `ReadArConf` against
  `ArConf.Commands`; `GetLimits` and `WriteYaml` state their results
  directly. The invariant
  `Valid()` holds throughout:
  - `global_limit` agrees with the document;
  - the last write is the current document;
  - a document without the section is never written.

Reading the YAML file is the constructor's `loaded` argument. Reading
`ar.conf` is its sequence of lines. Writing is an append to `written`.

## Model

| member | source | states |
|---|---|---|
| Text.Strip | api_func.py:71 | `str.strip()`: the result has no whitespace at either end and is a slice of the input with only whitespace around it |
| Text.Split | api_func.py:71 | `str.split(sep)`: at least one field; the first field is a prefix of the input; no field contains the separator; each cut is at the leftmost occurrence, so no occurrence starts inside a field; joining the fields with the separator gives the input back |
| Text.SplitThreeFields | api_func.py:71-72 | the split has at least three fields iff the text holds two occurrences of the separator that do not overlap |
| ArConf.LineCommand | api_func.py:71-75 | a command taken from a line ends in '0', has no whitespace at either end, holds no ' - ' and starts the stripped line; a line with fewer than three fields gives nothing |
| ArConf.LineCommandIff | api_func.py:71-75 | a line gives command `c` iff its stripped text holds two separate ' - ' separators and `c`, the stripped text before the first one, ends in '0' |
| ArConf.CollectIff | api_func.py:70-75 | the loop over the lines collects a value iff some line gives it |
| ArConf.CommandsIff | api_func.py:65-80 | a command is in the set `read_ar_conf` returns iff some line of the file names it |
| ArConf.CommandsEndInZero | api_func.py:73-75 | every command read ends in '0' |
| ArConf.ShortLineIgnored | api_func.py:72 | leaving out a line with fewer than three fields does not change the set of commands |
| Config.GlobalLimitOf | api_func.py:20 | the initial global limit is the document's `global-limit` when present, and 200 otherwise |
| Config.Merged | api_func.py:90-94 | the merged map has the old keys plus the commands; old entries keep their values; new ones hold the global limit |
| Config.Synced | api_func.py:87-99 | with the section present: every command becomes a key, no key is lost, existing values do not change, new keys hold the global limit, `global-limit` untouched; without it the document is unchanged |
| Config.Overridden | api_func.py:132-137 | same key set; keys in the update take its value; the others keep theirs |
| Config.LimitsUpdated | api_func.py:129-142 | with the section present, `custom-limit` keeps its key set (written empty when absent), only keys in the update change and `global-limit` is untouched; without it the document is unchanged |
| Config.GlobalLimitUpdated | api_func.py:151-158 | with the section present, `global-limit` becomes the new value and `custom-limit` is untouched; without it the document is unchanged |
| Config.SyncedIdempotent | api_func.py:84-96 | synchronising a second time with the same commands changes nothing, whatever the global limit then |
| Config.LimitsUpdatedIdempotent | api_func.py:132-139 | applying the same limit updates twice equals applying them once |
| Config.SeedingPreserved | api_func.py:92-96 | once every AR conf command is a key, limit updates, global limit updates and re-synchronisation keep it a key |
| Manager.ActiveResponseManager.constructor | api_func.py:11-22 | `global_limit` is the document's or 200; the document is the loaded one merged with the AR conf commands; written once if the section exists, never otherwise |
| Manager.ActiveResponseManager.WriteYaml | api_func.py:44-55 | a write saves the current document |
| Manager.ActiveResponseManager.ReadArConf | api_func.py:57-80 | the loop over the lines builds exactly the command set of the file |
| Manager.ActiveResponseManager.SyncCommands | api_func.py:82-99 | the loop leaves the document as `Synced` says; written once iff the section exists; the global limit and `Valid()` are kept |
| Manager.ActiveResponseManager.GetLimits | api_func.py:101-119 | with a non-empty list, exactly the entries whose keys occur in the list, values unchanged; with none or an empty list, the whole `custom-limit` |
| Manager.ActiveResponseManager.UpdateCommandLimits | api_func.py:121-142 | the loop leaves the document as `LimitsUpdated` says; written even when no key matched, iff the section exists; the global limit is kept |
| Manager.ActiveResponseManager.UpdateGlobalLimit | api_func.py:144-158 | with the section present, both the document's `global-limit` and the field become the new value and the document is written; without it neither changes and nothing is written |

## Left out

- YAML parsing and dumping (`yaml.safe_load`, `yaml.dump`): a foreign library. The document is an abstract value.
  Loading it is the constructor's argument; a write appends a snapshot to `written`.
- File existence checks, `open`, and the handling of `FileNotFoundError`, `yaml.YAMLError` and `PermissionError`: this is I/O.
  A missing or unreadable YAML file is the document `{}` (no section). A missing `ar.conf` is an empty sequence of lines.
  When reading `ar.conf` fails part-way, `except Exception` (`api_func.py:78-80`) returns the commands of the lines
  read so far; the model covers this as the constructor being given that prefix of the lines.
  A write that fails is still recorded in `written`.
- The file names `ar_limit_conf.yaml` and `ar.conf`: they only select the files.
- `print` logging: it has no effect on state.
- The demonstration script at the end of `api_func.py`: it is an example run against real files.
- Top-level keys other than `active-response`, and keys of the section other than `global-limit` and `custom-limit`.
  No operation reads or changes them, so they are not represented.
- Documents whose top level, `active-response` or `custom-limit` is present but is not a mapping (for example `null`
  or a list). A truthy non-mapping top level makes `.get` at `api_func.py:20` raise an `AttributeError` that
  `__init__` does not catch; the other cases raise `AttributeError` or `TypeError`, or are written back as they are. Limits are YAML `null` or integers only.
- Iteration order over the command set and over `new_limits_dict`: the loops pick keys in any order.
  The result does not depend on the order.
- Aliasing: `get_limits` returns the document's own dictionary, so callers can change it. The model returns a value.
- Checking limits against the global limit, the boolean results and the bulk update of custom and global limits together:
  they are not in `api_func.py`.
