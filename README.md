# Kannadafy core in Dafny

Kannadafy hides a Python script behind an alphabet. Each character is written as
the decimal digits of its code point. Each digit `d` becomes the symbol
`alphabet[d]`. Symbols within a character are separated by one space, characters
by two spaces. The payload is wrapped at 70 characters and embedded, with the
inverse table, in a small stub that decodes it and hands it to `exec`.

The model covers:

- the codec (`chunk_string`, `encode_string`) and the decoder the stub runs;
- the alphabets:
  - the five predefined tables;
  - validation;
  - loading from YAML, JSON, `.py` and text files;
  - templates;
  - the word alphabet harvested from text files;
- the two entry points `obfuscate` and `obfuscate_multiple`.

Modules follow the program:

| module | file | what it holds |
|---|---|---|
| `Runtime` | runtime.dfy | Python-style errors, `Result`/`Option`, the file system as a map from path to node, the parsed-document type and the foreign libraries as function fields of `Env` |
| `Seqs` | seqs.dfy | sequence facts: `Distinct`, `Elements`, `Concat`, `IndexOf` |
| `Text` | text.dfy | the `str` methods used: `strip`, `split`, `split()`, `join`, `lower`, `capitalize`, `title`, `rstrip` |
| `Decimal` | decimal.dfy | `str(n)` and `int(s)` on digit sequences |
| `Paths` | paths.dfy | `basename`, `splitext`, `join` |
| `Validation` | validation.dfy | `Kannadafy/utils/validation.py` |
| `TextObfuscation` | text_obfuscation.dfy | `Kannadafy/utils/text_obfuscation.py` |
| `Mapping` | mapping.dfy | `Kannadafy/utils/mapping.py` |
| `Scripts` | scripts.dfy | `CHARACTER_SETS` and `get_available_scripts` |
| `Codec` | codec.dfy | `chunk_string`, `encode_string` and the stub's decoder |
| `Core` | core.dfy | the rest of `Kannadafy/core.py` |

How the source's forms are kept:

- Operations that read or write files are functions from a file system to a result and a new file system (`Effect`).
- The three loops of `get_text_file_words` are methods with loop invariants, proved equal to left-recursive specification functions:
  - over the files;
  - over the comma parts of one file;
  - the duplicate filter.
- The loop of `validate_wordlist_files` is a method with a loop invariant.
- The loop of `obfuscate_multiple` is a method too, proved equal to `Core.Processed`.
- `validate_mapping` is modelled once (`Validation.ValidateMapping`). The function in `Kannadafy/core.py:42-48` is the same code as the one in `Kannadafy/utils/validation.py:5-18`; only the docstrings differ.

Where the project's own description and the code disagree, the model follows the code:

- **The round trip does not hold for empty text.** `encode_string("")` gives an empty payload. The stub then splits that into one empty group, and `int("")` raises.
  - `Codec.EmptyInput` shows this.
  - `Codec.RoundTrip` therefore requires non-empty text.
- **The round trip needs safe symbols.** The first ten symbols must be non-empty and hold no whitespace, double quote or backslash. Validation only checks the count and uniqueness, so a valid alphabet with a space in a digit symbol would not decode.
  - All five predefined tables meet the condition (`Scripts.CharacterSetsValid`).
- **An unknown script can fall back silently.** `obfuscate` with no other source and an unknown script uses kannada. `obfuscate_multiple` raises instead (`Core.AlphabetPrecedence`).
- **The batch returns only the results map.** `obfuscate_multiple` returns the map from each successful input to its output. It reports no success/total count.
- **Outputs are named `<base>_obfuscated<ext>`** in the output directory (`Core.ObfuscatedPathExample`). `tests/run_all_tests.py` expects `script{i}.py` instead.
- **The two loaders of `Kannadafy/core.py` and `Kannadafy/utils/mapping.py` differ.**
  - `load_custom_mapping` reads every extension other than yaml, yml, json and py as text. `MappingLoader.load` refuses them (`Core.UnknownExtensionIsText`).
  - `load_custom_mapping` validates what it loads. `MappingLoader` does not (`Mapping.LoaderDoesNotValidate`).
  - `generate_mapping_template` checks `.json` first and has its own error message. The written file is the same as `create_template`'s (`Core.SameTemplateFile`).

Foreign code is a parameter: the fields of `Env` stand for these libraries.

- `yaml.safe_load` and `json.load`.
- The regular-expression search and `ast.literal_eval` of the `.py` branch.
- `yaml.safe_dump`, `json.dump` and `pprint.pformat`.

The round trips through a serializer assume only that it reads back what it wrote (`Mapping.FaithfulSerializers`).

## Model

| member | source | states |
|---|---|---|
| Validation.ValidateMapping | Kannadafy/utils/validation.py:5-18 | Succeeds (with `True`) exactly when there are at least ten symbols and none repeats. Fewer than ten gives the size error, even when there are also repeats; otherwise a repeat gives the duplicate error. |
| Validation.ValidateInputFile | Kannadafy/utils/validation.py:20-41 | Succeeds exactly for a non-empty path naming a non-directory. The empty path is refused before the file system is consulted, with "No <type> file path provided". A missing path gets "<Type> file '<p>' not found". |
| Validation.ValidateWordlistFiles | Kannadafy/utils/validation.py:43-70 | Succeeds exactly for a non-empty list whose every path is a regular file. The empty list gets its own error. Any other failure is the error of the first bad path, with every earlier path good. "No valid wordlist files found" is never returned. |
| TextObfuscation.ValidateWordMapping | Kannadafy/utils/text_obfuscation.py:63-76 | Succeeds exactly for at least ten entries with no repeat. The size error comes first, then the duplicate error. |
| TextObfuscation.ExtractTokens | Kannadafy/utils/text_obfuscation.py:29-43 | The loop over one file's comma parts yields `FileTokens(content)`. That is: with a comma, the words of each stripped part that holds a space and the part itself otherwise; without a comma, the stripped non-empty lines. |
| TextObfuscation.CollectTokens | Kannadafy/utils/text_obfuscation.py:20-45 | The loop over the files yields the tokens of every readable file in list order. Missing and unreadable files contribute nothing. |
| TextObfuscation.UniqueTokens | Kannadafy/utils/text_obfuscation.py:47-51 | The loop with the membership test yields `Dedup(words)`, each token at its first occurrence. |
| TextObfuscation.GetTextFileWords | Kannadafy/utils/text_obfuscation.py:11-61 | The whole function equals `TextFileWords`: the loops, then the empty-string filter, then `None` below ten words. |
| TextObfuscation.DedupSpec | Kannadafy/utils/text_obfuscation.py:47-51 | The de-duplicated list has no repeats and holds exactly the tokens. Any two of its entries are in the order of their first occurrences. |
| TextObfuscation.NonEmptyMembers | Kannadafy/utils/text_obfuscation.py:54 | The filter keeps exactly the non-empty entries. |
| TextObfuscation.NonEmptyDistinct | Kannadafy/utils/text_obfuscation.py:54 | The filter keeps a repeat-free list repeat-free. |
| TextObfuscation.NonEmptyOrder | Kannadafy/utils/text_obfuscation.py:54 | The filter keeps first-occurrence order. |
| TextObfuscation.TextFileWordsSpec | Kannadafy/utils/text_obfuscation.py:47-61 | `None` exactly when the files hold fewer than ten distinct non-empty tokens. Otherwise the result is a valid alphabet holding exactly the non-empty tokens (no invented word), in order of first occurrence. |
| TextObfuscation.CorpusAppend | Kannadafy/utils/text_obfuscation.py:22-25 | Tokens come file by file: the corpus of `a + b` is the corpus of `a` followed by that of `b`. |
| TextObfuscation.SkippedFile | Kannadafy/utils/text_obfuscation.py:22-45 | A missing or unreadable file anywhere in the list changes nothing. |
| TextObfuscation.LineModeFile | Kannadafy/utils/text_obfuscation.py:40-43 | A comma-free file of stripped lines yields exactly those lines, inner spaces kept. |
| TextObfuscation.CommaModeFile | Kannadafy/utils/text_obfuscation.py:31-39 | Two or more space-free words separated by commas come out as exactly those words, in order. |
| TextObfuscation.CommaSpaceModeFile | Kannadafy/utils/text_obfuscation.py:31-39 | Two or more space-free words separated by `", "` come out as exactly those words, in order: the space after each comma is stripped. |
| TextObfuscation.HarvestedWordsValid | Kannadafy/utils/text_obfuscation.py:57-76 | A harvested list passes both `validate_word_mapping` and `validate_mapping`. |
| Mapping.LoadYaml | Kannadafy/utils/mapping.py:11-17 | Succeeds exactly when the file reads, parses and is a dict with `characters`; the result is that entry. A parsed document of any other shape gives the YAML shape error. |
| Mapping.LoadJson | Kannadafy/utils/mapping.py:20-28 | Succeeds exactly when the file reads, parses and is a list or a dict with `characters`. A list is returned unchanged; for a dict the result is its `characters` entry. A parsed document of any other shape gives the JSON shape error. |
| Mapping.LoadTxt | Kannadafy/utils/mapping.py:31-34 | Succeeds exactly when the file reads; the result is its stripped non-empty lines in file order. |
| Mapping.Load | Kannadafy/utils/mapping.py:37-53 | A missing path gets `FileNotFoundError` before the extension is looked at. An extension other than yaml, yml, json or txt (compared lower-cased, `.py` included) gets "Unsupported file extension". yaml and yml go to `load_yaml`, json to `load_json` and txt to `load_txt`, and the result is theirs. |
| Mapping.LoadTxtLines | Kannadafy/utils/mapping.py:31-34 | A text file of stripped lines loads as exactly those lines, repeats included. |
| Mapping.LoadRepeatedLine | Kannadafy/utils/mapping.py:31-53 | A `.txt` file holding one line twice loads as a list naming that symbol twice. |
| Mapping.LoaderDoesNotValidate | Kannadafy/utils/mapping.py:31-53 | The loader does not validate: a two-line file naming one symbol twice loads as two entries. |
| Mapping.Template | Kannadafy/utils/mapping.py:61-67 | The record carries the given script type and characters in order, named "Custom <Title> Mapping". |
| Mapping.ToJson | Kannadafy/utils/mapping.py:61-67 | The written document is a dict whose `characters` entry is the list of characters. |
| Mapping.CreateTemplate | Kannadafy/utils/mapping.py:59-77 | A directory path fails and changes nothing. Otherwise the file is created or truncated and nothing else changes. Success comes exactly for yaml, yml or json. On success the file holds `yaml.safe_dump` of the template for yaml or yml and `json.dump` of it for json. Any other extension fails with the extension error and leaves an empty file. |
| Mapping.TemplateRoundTrip | Kannadafy/utils/mapping.py:59-77 | With serializers that read back what they write, `load` on a template written to a yaml, yml or json path returns the characters in order. |
| Codec.Slices | Kannadafy/core.py:143 | The slices concatenate to the text and are each non-empty of at most `n` characters. All but the last have exactly `n`. There are none exactly for the empty text. |
| Codec.ChunkLayout | Kannadafy/core.py:140-144 | Empty text chunks to empty text. Otherwise the result is the slices joined by backslash-newline, minus trailing backslashes. With no trailing backslash in the text it is exactly that join. |
| Codec.ChunkEatsTrailingBackslash | Kannadafy/core.py:144 | `rstrip` also removes a backslash that belonged to the text: `"a\"` chunks to `"a"`. |
| Codec.LiteralOfChunk | Kannadafy/core.py:150-158 | Read back as the stub's string literal, a chunked backslash-free text is the text: every inserted line break is escaped. |
| Codec.DigitSymbols | Kannadafy/core.py:155 | Succeeds exactly when every digit has a symbol; the i-th result is `alphabet[ds[i]]`. A missing digit raises `KeyError`. |
| Codec.InverseTable | Kannadafy/core.py:148-149 | The table's keys are the alphabet's symbols. Each symbol maps to a position holding it, with no later position holding it. |
| Codec.InverseTableAt | Kannadafy/core.py:148-149 | In a repeat-free alphabet every symbol, not only the first ten, maps back to its own position. |
| Codec.GroupsLayout | Kannadafy/core.py:155 | There is one group per character, in order: the symbols of the decimal digits of its code point, joined by single spaces. The encoding never fails with ten or more symbols. |
| Codec.SymbolsAreDigits | Kannadafy/core.py:155 | Only the first ten symbols ever appear in a group. |
| Codec.PayloadAvoids | Kannadafy/core.py:155 | A non-space character absent from the ten digit symbols is absent from the payload. |
| Codec.SymbolDigits | Kannadafy/core.py:151 | The decoder's lookup succeeds exactly when every symbol is in the table. |
| Codec.DecodeGroupOf | Kannadafy/core.py:151 | The decoder turns the group of `c` back into `c`, for a repeat-free alphabet with safe digit symbols. |
| Codec.RoundTrip | Kannadafy/core.py:146-159 | For non-empty text and a repeat-free alphabet with safe digit symbols, encoding succeeds. The stub's decoder then yields exactly the text. |
| Codec.BodyHasNoQuote | Kannadafy/core.py:150-158 | With safe digit symbols the payload literal holds no double quote, so it cannot end early. |
| Codec.EmptyInput | Kannadafy/core.py:150-158 | Empty text encodes to an empty literal, which the stub fails to decode (`int("")`). |
| Codec.ShortAlphabetFails | Kannadafy/core.py:148-155 | A character with a digit the alphabet has no symbol for fails the encoding with `KeyError`. |
| Decimal.Digits | Kannadafy/core.py:155 | `str(n)` has at least one digit, each below ten. A leading zero only occurs for zero. There is exactly one digit below ten. |
| Decimal.ParseDigitsOfDigits | Kannadafy/core.py:151 | `int(str(n)) == n`. |
| Decimal.DigitsOfParseDigits | Kannadafy/core.py:151 | `str(int(s)) == s` for every digit string without a leading zero. |
| Paths.RFind | Kannadafy/core.py:280 | The last position of the character, or -1 when it does not occur. |
| Paths.SplitExtParts | Kannadafy/core.py:280 | `splitext` cuts the path into two parts that concatenate back to it. The extension is empty or a dot followed by neither dot nor slash. |
| Text.SplitJoin | Kannadafy/core.py:151-155 | The stub's `split("  ")` undoes the encoder's `"  ".join` for groups that neither hold nor run into two spaces. |
| Text.WordsOfJoin | Kannadafy/core.py:151-155 | The stub's `x.split()` undoes the encoder's `" ".join` for non-empty whitespace-free symbols. |
| Text.StrippedLinesOfJoin | Kannadafy/utils/mapping.py:31-34 | The stripped non-empty lines of a file of non-empty stripped lines are those lines. |
| Scripts.GetAvailableScripts | Kannadafy/core.py:136-138 | Every table name once, kannada first, five in all. |
| Scripts.KannadaValid | Kannadafy/core.py:12-17 | The kannada table has 49 symbols, no repeat, and safe digit symbols. |
| Scripts.DevanagariValid | Kannadafy/core.py:18-22 | The devanagari table has 43 symbols, no repeat, and safe digit symbols. |
| Scripts.TeluguValid | Kannadafy/core.py:23-27 | The telugu table has 46 symbols, no repeat, and safe digit symbols. |
| Scripts.TamilValid | Kannadafy/core.py:28-32 | The tamil table has 34 symbols, no repeat, and safe digit symbols. |
| Scripts.GreekValid | Kannadafy/core.py:33-37 | The greek table has 34 symbols, no repeat, and safe digit symbols. |
| Scripts.CharacterSetsValid | Kannadafy/core.py:11-38 | Every predefined table passes `validate_mapping` and meets the round-trip conditions. |
| Core.AsSymbols | Kannadafy/core.py:96-99 | A string is read as its characters and a list of strings as itself. A list holding a non-string is refused. Every refusal is a `TypeError`. |
| Core.Validated | Kannadafy/core.py:96-99 | Succeeds exactly with a symbol list that passes `validate_mapping`, and returns it. |
| Core.LoadCustomMapping | Kannadafy/core.py:78-134 | A missing file raises `FileNotFoundError` before any parsing. Every later failure, validation included, is a `ValueError` starting "Failed to load mapping file: ". Every success is a valid alphabet. |
| Core.CoreLoaderAgrees | Kannadafy/core.py:90-114 | For yaml, yml, json and txt, `load_custom_mapping` succeeds exactly when `load` succeeds and its value validates, with the same symbols. |
| Core.UnknownExtensionIsText | Kannadafy/core.py:127-131 | An extension `load` refuses (other than `.py`) is read by `load_custom_mapping` as one symbol per stripped non-empty line. It succeeds exactly when those lines are a valid alphabet. |
| Core.UnknownScriptNames | Kannadafy/core.py:52-54 | The unknown-script message lists "kannada, devanagari, telugu, tamil, greek". |
| Core.WriteTemplate | Kannadafy/core.py:64-73 | A directory path fails and changes nothing. Otherwise the paths are the old ones plus the output, every other path keeps its node, and success comes exactly for json, yaml or yml. On success the output holds `json.dump` of the document for `.json` and `yaml.safe_dump` of it for yaml or yml. Any other extension fails and leaves an empty file. |
| Core.GenerateMappingTemplate | Kannadafy/core.py:50-76 | An unknown script raises and leaves the files alone. Success comes exactly for a known script and a writable yaml, yml or json path. Every other failure starts "Failed to create template: ". The files written are those of the template for `CHARACTER_SETS[script]`. |
| Core.GeneratedTemplateRoundTrip | Kannadafy/core.py:56-76 | With faithful serializers, a generated template loads back through `load_custom_mapping` as its script's table. |
| Core.SameTemplateFile | Kannadafy/core.py:66-73 | `generate_mapping_template` and `create_template` write the same file and succeed on the same paths. |
| Core.ChosenAlphabetsValid | Kannadafy/core.py:186-206 | Whatever its source, an alphabet that is chosen is valid. |
| Core.AlphabetPrecedence | Kannadafy/core.py:186-269 | In both entry points text files win, then a validated custom alphabet, then a mapping file, then the script. With no other source, an unknown script falls back to kannada in `obfuscate` and raises "Unknown alphabet type" in `obfuscate_multiple`; otherwise both choose alike. |
| Core.EncodeFile | Kannadafy/core.py:208-214 | Succeeds exactly when the input reads and encodes, and returns that encoding. |
| Core.WriteObfuscated | Kannadafy/core.py:208-220 | Success exactly when the input encodes and the output is not a directory. The new files are the old ones with the output holding the rendered stub. A failure changes nothing. |
| Core.Obfuscate | Kannadafy/core.py:161-222 | A missing input raises `FileNotFoundError` first. An error choosing the alphabet propagates unchanged. Success comes exactly when the input exists, an alphabet is chosen and `WriteObfuscated` succeeds; it returns `True` and the files are those `WriteObfuscated` leaves. A read, encoding or write failure is a `RuntimeError` "Obfuscation failed: " followed by its message. A failure leaves the files alone. |
| Core.ObfuscateRoundTrip | Kannadafy/core.py:201-222 | With a built-in script, a readable non-empty input and a writable output, `obfuscate` succeeds. It writes the stub of an encoding that decodes to the input. |
| Core.ObfuscatedPathExample | Kannadafy/core.py:279-281 | The output for `src/test.py` in `out` is `out/test_obfuscated.py`. |
| Core.MakeDirs | Kannadafy/core.py:247 | Succeeds exactly unless a non-directory occupies the path, which then is a directory. |
| Core.ObfuscateMultiple | Kannadafy/core.py:224-300 | The loop for loop equals `ObfuscateMultipleSpec`: make the directory, choose the alphabet, then `Processed` over the inputs. |
| Core.ProcessedStep | Kannadafy/core.py:273-295 | After one more input the recorded inputs are the earlier ones plus that input exactly when it exists and its write succeeds. Records of other inputs keep their output names, the new one gets its own, and a missing input leaves the files alone. |
| Core.ProcessedRecords | Kannadafy/core.py:279-295 | Only inputs are recorded, each under `join(output_dir, base + "_obfuscated" + ext)`. |
| Core.ProcessedWritesFiles | Kannadafy/core.py:292-293 | The loop writes only regular files: a file stays a file and no directory appears. |
| Core.WriteSucceeds | Kannadafy/core.py:285-293 | A readable input and a non-directory output are written successfully with ten or more symbols. |
| Core.ProcessedComplete | Kannadafy/core.py:273-300 | When every input is a readable file and no output path is a directory, every input is recorded. |
| Core.BatchRecordsEveryInput | Kannadafy/core.py:224-300 | With a built-in script, readable inputs and writable outputs, the batch succeeds and records every input under its output name. |
| Core.MissingInputSkipped | Kannadafy/core.py:274-276 | A missing input changes neither the results nor the files. |
| Core.FailedInputNotRecorded | Kannadafy/core.py:297-298 | An input whose read, encoding or write fails is not recorded, and the loop goes on unchanged. |

## Left out

- `Kannadafy/cli.py` and `Kannadafy/kannadafy.py` (argument parsing, banner, version printing, subcommand dispatch) are not part of this model. Neither are the tests, the demo scripts and `setup.py`.
- `os.path.normpath` on every path is not modelled: paths are compared as given.
- Paths are POSIX paths; Windows separators are not modelled.
- `os.makedirs` is modelled for the output directory itself; missing parent directories are not.
- The file system is a flat map, so opening a file for writing succeeds even when its parent directory is missing, where Python's `open(path, 'w')` raises `FileNotFoundError`. For `obfuscate` this means `Core.WriteObfuscated` and `Core.Obfuscate` succeed on such an output path where Python fails.
- The warnings and messages written with `print` are left out; they change no state.
- The `kannada` parameter of `obfuscate` is unused by the code and is not a parameter of the model.
- File I/O is a map from path to node (file text, undecodable file, directory), passed in and returned.
  - Permissions, full disks and other operating-system failures are not modelled.
  - Universal-newline translation of `\r\n` and `\r` on reading is not modelled: the text is read as stored.
- The exact text of `pprint.pformat`, `yaml.safe_dump` and `json.dump` is not modelled: they are function parameters. Round trips through them assume only that parsing reads back what dumping wrote.
- The `.py` mapping branch's regular expression and `ast.literal_eval` are one function parameter. The parser's messages are taken from the parsed outcome.
- Executing the generated stub is modelled as `Codec.Decoded`:
  - read the string literal, with backslash-newline as its only escape;
  - split on two spaces, then on whitespace;
  - map each symbol through the table and read the digits with `int`;
  - apply `chr`.
  - `exec` itself and the rendering of the table are outside the model.
- Parsed numbers are integers; JSON and YAML floats are not modelled.
- `Text.Lower`, `Text.Capitalize`, `Text.Title`: case mapping is ASCII only, while Python also maps other letters. This affects the lowered extension and the template name only for non-ASCII input.
- `Codec.IsCodePoint`: Python strings may hold surrogate code points, Dafny characters cannot. Surrogates are left out of the texts being encoded and of what `chr` may return.
- `Core.AsSymbols`: a `characters` value that is neither a string nor a list of strings (a dict, a list of numbers) is refused with a `TypeError` whose message belongs to the model.
  - Python would accept a dict by its keys.
  - A list of numbers would pass validation and fail later inside `encode_string`.
