# Signal-metadata augmentation of the tuxid entropy table

tuxid collects machine-identifying signals (hardware identifiers, network
addresses, OS metadata) from Linux hosts and evaluates how identifying each
signal is. The evaluation script `eval/tuxid_entropy.py` takes the per-signal
entropy table produced by an external shell script and augments it with
metadata from a fixed signal registry: whether a user can reset the signal and
which privilege level reading it requires. It then draws a chart where the
side of the axis shows resettability and the colour shows the privilege.

This project models that augmentation step in Dafny:

- `registry.dfy` (module `SignalRegistry`): the registry `signal_metadata`, its
  twenty entries in source order, the Python dictionary-display semantics that
  build it, and the lookup with defaults. An unknown or missing name gets empty
  metadata.
- `header.dfy` (module `Header`): the header rewrite of `process_csv`. It puts
  `user_resettable` and `read_privileges` right after every `Signal Name`
  column. It is a loop method proved against a recursive specification. The
  lemmas give the length, the position of every original column, and an
  inverse that strips the added columns again.
- `augment.dfy` (module `Augment`): the row join of `process_csv` and the
  `csv.DictWriter` it writes through. Each row gets the registry metadata of
  its signal and keeps every other cell. The writer emits one record per row
  in input order, with `""` for missing keys. The writer raises on the first
  row that has a key outside the header; this is modelled as an error result.
  `ProcessCsv` is the loop that fills the output buffer.
- `chart.dfy` (module `Chart`): the two classifications the chart reads from
  the augmented table: the resettable side (`'Yes' in x`) and the privilege
  colour map with its gray default. It also models how pandas reads an empty
  cell back as NaN.
- `wrappers.dfy` (module `Wrappers`): `Option` and `Result`.

The input of `process_csv` is modelled after CSV parsing: the reader's
header, `None` when the text has no header line (then the field loop raises
`TypeError`, modelled as the error `NoFieldnames`), plus rows
(`map<string, string>` per row). The output is the
sequence of records the writer emits (the header, then one list of cells per
row), before CSV quoting.

Three facts about the code shape the model:

- The entropy values in the table come from an external script; this file
  computes none of them, so no entropy or stability formula is modelled.
- The metadata are the strings "Yes"/"No" and "local"/"local root", and the
  model keeps those strings.
- The two metadata columns go right after every `Signal Name` column, and the
  other columns stay where they were.

## Model

| member | source | states |
|---|---|---|
| `SignalRegistry.Registry` | eval/tuxid_entropy.py:13-101 | the registry has exactly twenty names, and every entry is "Yes"/"No" with "local"/"local root" |
| `SignalRegistry.EntriesDistinct` | eval/tuxid_entropy.py:13-101 | the twenty items of the display name twenty different signals, so no item is shadowed |
| `SignalRegistry.FromDisplay` | eval/tuxid_entropy.py:13-101 | a dictionary display has as keys exactly the names of its items |
| `SignalRegistry.FromDisplayAt` | eval/tuxid_entropy.py:13-101 | when names are distinct, every item's metadata is what the dictionary holds under its name |
| `SignalRegistry.FromDisplaySize` | eval/tuxid_entropy.py:13-101 | when names are distinct, the dictionary has one key per item |
| `SignalRegistry.RegistryEntries` | eval/tuxid_entropy.py:13-101 | the registry holds exactly the items of the display, each under its own name |
| `SignalRegistry.RegistryRootOnly` | eval/tuxid_entropy.py:13-101 | "Main Board Product UUID" and "Main Board Product Serial" are registered, and a registered signal needs "local root" exactly when it is one of these two |
| `SignalRegistry.RegistryResettable` | eval/tuxid_entropy.py:13-101 | a registered signal is "Yes" exactly when it is one of the nine user-resettable signals |
| `SignalRegistry.ResettableKnown` | eval/tuxid_entropy.py:13-101 | each of the nine user-resettable signals is a registry key |
| `SignalRegistry.Lookup` | eval/tuxid_entropy.py:128-131 | the result is a well-formed entry exactly when the name is present and registered, and is then that entry; otherwise both fields are empty strings |
| `Header.ExtendFieldnames` | eval/tuxid_entropy.py:115-120 | the loop builds exactly the rewritten header `Extended(originalFields)` |
| `Header.ExtendedLength` | eval/tuxid_entropy.py:116-120 | the output header is the input length plus two per "Signal Name" column |
| `Header.ExtendedWithoutSignalName` | eval/tuxid_entropy.py:116-120 | without a "Signal Name" column the header is returned unchanged |
| `Header.ExtendedAt` | eval/tuxid_entropy.py:116-120 | input column i lands at index i plus two per earlier "Signal Name", and a "Signal Name" column is immediately followed by `user_resettable`, `read_privileges` |
| `Header.PositionIncreasing` | eval/tuxid_entropy.py:116-120 | input columns keep their relative order in the output |
| `Header.ExtendedMembers` | eval/tuxid_entropy.py:116-120 | a name is an output column exactly when it is an input column, or is one of the two metadata columns and the input has "Signal Name" |
| `Header.StrippedExtended` | eval/tuxid_entropy.py:116-120 | removing the two columns after each "Signal Name" gives back the input header, so nothing else is inserted |
| `Augment.AugmentRow` | eval/tuxid_entropy.py:127-131 | the row gains exactly the two metadata keys and keeps every other cell; the metadata is the registry entry of a known signal and `""` for a missing or unknown name |
| `Augment.SignalNameOf` | eval/tuxid_entropy.py:128 | `row.get("Signal Name")`; no contract of its own: `SignalRegistry.Lookup` and `Augment.AugmentRow` state what the name selects |
| `Augment.ExtrasEmpty` | eval/tuxid_entropy.py:124-132 | the set of keys the writer rejects (`Augment.Extras`) is empty exactly when every key of the row is a header column |
| `Augment.AugmentAll` | eval/tuxid_entropy.py:127-132 | success exactly when every augmented row fits the header; then one augmented row per input row, in order; otherwise the error names the first misfitting row and its extra keys |
| `Augment.Process` | eval/tuxid_entropy.py:109-134 | `process_csv` on a parsed table: it succeeds exactly when every augmented row fits the rewritten header, and a failure names a row that does not fit; `Augment.ProcessRows` gives the table of a success |
| `Augment.Record` | eval/tuxid_entropy.py:124-132 | the writer's record has one cell per header column, and when the row fits, every cell of the row appears under its own column; `Augment.RecordOther` and `Augment.RecordMetadata` give the cells one by one |
| `Augment.Written` | eval/tuxid_entropy.py:123-134 | the buffer holds the header record and then one record per row, each as long as the header; `Augment.WrittenShape`, `Augment.WrittenInputCell` and `Augment.WrittenMetadataCells` state it for a run |
| `Augment.ProcessCsv` | eval/tuxid_entropy.py:109-134 | without a header line the method fails with `NoFieldnames`, as iterating `None` at line 117 raises; otherwise its output buffer is the header record followed by one record per row of `Process`, and its error is the one `Process` reports |
| `Augment.ProcessRows` | eval/tuxid_entropy.py:115-132 | a successful run has the rewritten header and, for each input row, its augmented row at the same index |
| `Augment.ProcessSucceeds` | eval/tuxid_entropy.py:115-132 | for rows read under the header, processing succeeds exactly when there are no rows, or the header has "Signal Name", or it already had both metadata columns; an unknown signal never causes failure |
| `Augment.WrittenShape` | eval/tuxid_entropy.py:123-132 | a successful run writes the rewritten header and then one record per row, each as long as the header |
| `Augment.WrittenInputCell` | eval/tuxid_entropy.py:127-132 | under every input column not named `user_resettable` or `read_privileges`, a row's record holds the row's own cell, or `""` when the row lacks it; an input column with one of those names is overwritten, as `Augment.WrittenMetadataColumn` states |
| `Augment.WrittenMetadataColumn` | eval/tuxid_entropy.py:124-132 | every column named `user_resettable` or `read_privileges`, whether inserted after "Signal Name" or already in the input header, holds the looked-up metadata of the row's signal |
| `Augment.WrittenMetadataCells` | eval/tuxid_entropy.py:116-131 | the two cells after a "Signal Name" column hold the looked-up metadata of that row's signal |
| `Chart.Contains` | eval/tuxid_entropy.py:144 | Python's `sub in s`: the empty string is in every string, and a longer string is never in a shorter one; `Chart.ContainsOccurs` relates it to an independent definition |
| `Chart.ContainsOccurs` | eval/tuxid_entropy.py:144 | Python's substring test holds exactly when the substring occurs at some index |
| `Chart.ResettableSide` | eval/tuxid_entropy.py:144 | the side is 1 exactly when the text contains "Yes", and -1 otherwise |
| `Chart.CellAsRead` | eval/tuxid_entropy.py:138 | an empty CSV field is read back as NaN, and any other text is read back unchanged |
| `Chart.PrivilegeColour` | eval/tuxid_entropy.py:183-184 | the colour is red exactly for "local root", green exactly for "local", and gray for anything else including NaN |
| `Chart.SideAsWritten` | eval/tuxid_entropy.py:144 | the lambda raises exactly on a NaN cell, and otherwise yields 1 exactly when the text contains "Yes" |
| `Chart.UnknownSignalBreaksSide` | eval/tuxid_entropy.py:129-144 | for every row whose signal is not in the registry, the side mapping as written raises |
| `Chart.UnknownSignalExample` | eval/tuxid_entropy.py:129-144 | the row with Signal Name "Uptime" makes the side mapping as written raise |
| `Chart.Side` | eval/tuxid_entropy.py:144 | the corrected side: 1 exactly when the cell is text containing "Yes"; -1 otherwise, NaN included |
| `Chart.AugmentedSide` | eval/tuxid_entropy.py:144 | an augmented row is on the resettable side exactly when its signal is registered and user-resettable |
| `Chart.AugmentedColour` | eval/tuxid_entropy.py:183-184 | an augmented row is red when its signal needs root, green when it is registered and readable locally, and gray when the signal is unknown |

## Left out

- Running `./tuxid_entropy.sh` through `subprocess` (eval/tuxid_entropy.py:103-107) and the command-line handling of `main` (eval/tuxid_entropy.py:236-254) are process and file I/O. The entropy values come from that external script, and no formula for them is modelled.
- CSV text is not modelled: not parsing by `csv.DictReader`, not quoting by `csv.DictWriter`, and not the `StringIO` buffers. Rows are maps and the output is the list of records before quoting.
- A row shorter than the header has `None` cells, which is modelled as the key being absent. Both behave the same for `row.get` and for the writer.
- A row longer than the header puts its extra cells under the key `None`. That key is not a header column, so the writer rejects the row; the model covers this as any key outside the header.
- `CellAsRead`: pandas also reads tokens such as "NA" or "null" as NaN, and it infers column types, so a column of numbers or of True/False values does not come back as text. Only the empty field is modelled, because every metadata cell the augmentation writes is a registry string or empty.
- Chart layout and drawing are floating point, random or matplotlib calls and are left out: the radius normalisation (eval/tuxid_entropy.py:148), `compute_x_positions` (eval/tuxid_entropy.py:156-173), the random jitter (eval/tuxid_entropy.py:190), figure, legend and file output.
- `eval/tuxid_stability.py` is left out. Its column stripping and inner join are single pandas calls, the stability numbers come from an external script, and the rest is plotting.
- `web-server/server.py` and `web-server/tuxid.py` are left out: HTTP routes, database persistence, install-id generation from randomness and SHA-256, boot numbering on the file system, downloads and shell execution.
- The Android sources are left out: UI activities, coroutines, process execution, HTTP and stored preferences.
- The registry is modelled as a map from name to a `SignalMetadata` value, not as a dictionary of dictionaries. Every entry has both keys, so the inner `.get(field, "")` never falls back to its default for a registered name.

## Findings

| source | as written | input that shows it | evidently intended | confidence | as-written member | corrected member |
|---|---|---|---|---|---|---|
| eval/tuxid_entropy.py:144 | The lambda `'Yes' in x` is applied to every `user_resettable` cell of the table that pandas reads back. For a signal the registry does not know, `process_csv` writes an empty cell, pandas reads it as NaN, and `'Yes' in NaN` raises `TypeError`. | A table row with Signal Name "Uptime" | An unknown signal is drawn on the not-resettable side (-1) and in gray, as the `fillna('gray')` at line 184 anticipates | medium; not executed | `Chart.UnknownSignalBreaksSide` | `Chart.AugmentedSide` |
