# Hollow Knight save container codec, in Dafny

This project models the save-file codec of the Hollow Knight save editor
(`hk_save_editor.py`) as pure functions over byte strings, and proves its
stages invert each other. A `user.dat` container is

    C_SHARP_HEADER (22 bytes) ++ base64( AES-256-ECB( PKCS#7( UTF-8( JSON ) ) ) ) ++ 0x0B

`decode_hollow_knight_save` checks and strips the header and the footer byte,
base-64 decodes the middle, decrypts it block by block, removes the PKCS#7
padding and parses the JSON. `encode_hollow_knight_save` does the reverse.
The module also models the five editing presets. Each one reads
`playerData` from the record, using an empty object when it is missing,
overwrites a fixed set of keys and stores it back.

Modules, one per stage:

- `Results` (results.dfy): `Option` and `Result` for the errors the source raises.
- `Bytes` (bytes.dfy): `byte`, and Python's `startswith` / `endswith` on byte strings.
- `Base64` (base64.dfy): `b64encode`, and `b64decode` with its default `validate=False`.
  The decoder is modelled as the non-strict scan of CPython's `binascii.a2b_base64`. Bytes outside the
  alphabet are skipped. A `=` counts only after two data characters of a quantum. A completed padding
  run ends the scan, and whatever follows it is ignored. An unfinished quantum is an error.
- `Pkcs7` (pkcs7.dfy): `pad` and `unpad` from `Crypto.Util.Padding` with a 16-byte block
  (section 6.3 of RFC 5652), including the library's four distinct failures.
- `Ecb` (ecb.dfy): ECB mode over an abstract block cipher. `BlockCipher` holds any
  pair of keyed maps on 16-byte blocks. `Inverts(c)` states that decryption undoes
  encryption. Every round-trip fact assumes it.
- `Json` (json.dfy): the record as a JSON value. `JsonText` supplies the
  `json.dumps`/`encode('utf-8')` and `decode('utf-8')`/`json.loads` directions. `Faithful(t)`
  states that parsing what was serialised gives the value back.
- `SaveCodec` (container.dfy): framing, the byte pipeline, and the two public operations.
- `Presets` (presets.dfy): the five presets and menu option 6 (all of them in turn).

Points where the code's behaviour is easy to misread, and which the model follows exactly:

- The header constant in the code is 22 bytes (44 hex digits), so an accepted container is at least 23 bytes.
- An empty ciphertext is not rejected by a length check. ECB accepts zero blocks, and
  the failure comes from `unpad` ("zero-length input"), as `SaveCodec.EmptyCiphertextRejected` states.
- A payload whose length is not a multiple of 4 is not always rejected. Under
  `validate=False`, non-alphabet bytes are skipped first. `Base64.DataOnlyOutcome`
  states the rejection exactly for payloads made only of alphabet characters.
- UTF-8 and JSON errors are one error (`BadJson`), because the code catches both in one handler.

## Model

| member | source | states |
|---|---|---|
| Base64.Encode | hk_save_editor.py:113 | output length is 4·⌈n/3⌉ and every output byte is an RFC 4648 alphabet character or `=` |
| Base64.SextetInvertsChar | hk_save_editor.py:52 | the decoder's character table is the exact inverse of the encoder's: a byte decodes to value v iff v encodes to that byte |
| Base64.DecodeFrom | hk_save_editor.py:52 | the lenient scan only ever appends to the bytes already produced, and each data character adds at most three quarters of a byte |
| Base64.Decode | hk_save_editor.py:51-54 | `b64decode` returns at most three bytes for every four input bytes; what it returns is stated by `DecodeEncode` (its inverse), `JunkIgnored`, `DataOnlyOutcome` and `ShortPaddingRejected` |
| Base64.DecodeEncode | hk_save_editor.py:51-54 | `b64decode(b64encode(x)) == x` for every byte string x |
| Base64.DecodeEncodeThen | hk_save_editor.py:51-54 | after an encoded string, the scan either continues cleanly (input length a multiple of 3) or has already finished with x, ignoring any trailing bytes |
| Base64.JunkIgnored | hk_save_editor.py:52 | inserting a byte that is neither an alphabet character nor `=` anywhere never changes the decoding outcome (`validate=False`) |
| Base64.DataOnlyOutcome | hk_save_editor.py:51-54 | armor made only of alphabet characters decodes iff its length is a multiple of 4; length ≡ 1 (mod 4) gives the "1 more than a multiple of 4" error, 2 or 3 gives "Incorrect padding" |
| Base64.ShortPaddingRejected | hk_save_editor.py:51-54 | too few `=` after a partial quantum is rejected, with the error binascii reports |
| Pkcs7.Pad | hk_save_editor.py:99 | result is a positive multiple of 16, longer than the input by 1..16 bytes, starts with the input, and every added byte equals the number of bytes added |
| Pkcs7.Unpad | hk_save_editor.py:66-69 | empty input, a length not a multiple of 16, a last byte outside 1..16, and a trailing run that is not n copies of n are each rejected with their own error; on success, padding the result gives back the input |
| Pkcs7.UnpadPad | hk_save_editor.py:66-69 | `unpad(pad(x)) == x` |
| Pkcs7.UnpadExactlyOnPadded | hk_save_editor.py:66-69 | `unpad` succeeds exactly on the outputs of `pad`, and returns their unique preimage |
| Ecb.Blockwise | hk_save_editor.py:57-61 | applying a block map block by block preserves length |
| Ecb.Encrypt | hk_save_editor.py:104-110 | encryption succeeds iff the input is whole blocks, and preserves length |
| Ecb.Decrypt | hk_save_editor.py:57-63 | decryption succeeds iff the input is whole blocks (zero blocks included), and preserves length |
| Ecb.BlockwiseAppend | hk_save_editor.py:57-61 | no chaining: the mode applied to a concatenation of whole blocks is the concatenation of the mode applied to each |
| Ecb.DecryptEncrypt | hk_save_editor.py:56-63 | when the block cipher inverts, ECB decryption of the ECB encryption of any block-aligned input gives the input back |
| SaveCodec.Unframe | hk_save_editor.py:38-48 | any input not starting with the 22-byte header (including every shorter input) fails with the header error; otherwise, an input whose remainder is empty or does not end in 0x0B fails with the footer error; on success the input is header ++ result ++ [0x0B], so it is at least 23 bytes |
| SaveCodec.Frame | hk_save_editor.py:116 | the container is 22 + \|payload\| + 1 bytes long |
| SaveCodec.UnframeFrame | hk_save_editor.py:42-48 | stripping header and footer as decoding does recovers exactly the framed payload |
| SaveCodec.DecodePlain | hk_save_editor.py:38-69 | the header and footer rejections hold for the whole byte pipeline; any accepted container is at least 23 bytes |
| SaveCodec.EncodePlain | hk_save_editor.py:97-118 | encoding never fails; the output starts with the header, ends with 0x0B and is 22 + 4·⌈\|pad(p)\|/3⌉ + 1 bytes long |
| SaveCodec.PlainRoundTrip | hk_save_editor.py:56-69 | when the block cipher inverts, decoding the encoding of any plaintext p reaches the UTF-8/JSON step with exactly p |
| SaveCodec.EncodedShape | hk_save_editor.py:97-116 | the inner ciphertext of every container is a positive multiple of 16 bytes, and the container is its armor framed |
| SaveCodec.UnalignedArmorRejected | hk_save_editor.py:50-54 | a framed payload of alphabet characters whose length is not a multiple of 4 fails at the base-64 stage |
| SaveCodec.UnalignedCiphertextRejected | hk_save_editor.py:59-63 | armor that decodes to a length that is not whole blocks fails at the decryption stage |
| SaveCodec.EmptyCiphertextRejected | hk_save_editor.py:56-69 | armor that decodes to no bytes (the empty armor among them) passes decryption as zero blocks and fails at unpadding with the zero-length error |
| SaveCodec.UnpaddableRejected | hk_save_editor.py:65-69 | armor that decodes to whole blocks whose decryption is not validly padded fails at the unpadding stage, with the error `unpad` raised |
| SaveCodec.DecodeSave | hk_save_editor.py:38-78 | header and footer rejection; an error of any earlier stage is passed on unchanged; once the plaintext is reached, decoding succeeds iff the UTF-8/JSON step parses it, returning exactly the parsed record, and fails with the single JSON error otherwise |
| SaveCodec.EncodeSave | hk_save_editor.py:93-118 | encoding a record never fails and always yields a framed container |
| SaveCodec.SaveRoundTrip | hk_save_editor.py:71-78 | when the cipher inverts and the JSON text form is faithful, decoding the encoding of a record gives back an equal record |
| SaveCodec.ReencodeStable | hk_save_editor.py:94-118 | re-encoding the decoded form of an encoded container reproduces it byte for byte |
| Presets.Assign | hk_save_editor.py:152-154 | after the assignments, a key is present iff it was present before or some block assigns it, and keys no block assigns keep their old values |
| Presets.ApplyPreset | hk_save_editor.py:150-154 | a preset fails exactly when Python would raise, with `NotAnObject` when the record has no `.get` and `PlayerDataNotObject` when `playerData` rejects item assignment; otherwise only `playerData` changes at the top level, and it holds the old player fields (or `{}`) after the assignments |
| Presets.MaximizeHealthAndSoul | hk_save_editor.py:122-147 | raises exactly as Python would and otherwise changes only `playerData` at the top level; what it writes there is stated by `MaximizeHealthAndSoulEffect` |
| Presets.GiveMaxGeo | hk_save_editor.py:150-154 | raises exactly as Python would and otherwise changes only `playerData` at the top level; what it writes there is stated by `GiveMaxGeoEffect` |
| Presets.UnlockAllCharms | hk_save_editor.py:157-184 | raises exactly as Python would and otherwise changes only `playerData` at the top level; what it writes there is stated by `UnlockAllCharmsEffect` |
| Presets.UnlockAllAbilities | hk_save_editor.py:186-221 | raises exactly as Python would and otherwise changes only `playerData` at the top level; what it writes there is stated by `UnlockAllAbilitiesEffect` |
| Presets.UpgradeNailAndSpells | hk_save_editor.py:223-238 | raises exactly as Python would and otherwise changes only `playerData` at the top level; what it writes there is stated by `UpgradeNailAndSpellsEffect` |
| Presets.PresetsCompose | hk_save_editor.py:325-330 | running two presets in turn equals one preset making both lists of assignments in order |
| Presets.GiveMaxGeoEffect | hk_save_editor.py:150-155 | `give_max_geo` succeeds on any editable record, and `playerData` becomes its old fields with `geo = 9999999` and nothing else changed |
| Presets.MaximizeHealthAndSoulEffect | hk_save_editor.py:122-148 | `playerData` becomes its old fields overridden by exactly the sixteen health and soul values |
| Presets.UnlockAllAbilitiesEffect | hk_save_editor.py:186-221 | `playerData` becomes its old fields overridden by exactly the twenty-four ability flags |
| Presets.UpgradeNailAndSpellsEffect | hk_save_editor.py:223-238 | `playerData` becomes its old fields overridden by exactly the six nail and spell values |
| Presets.CharmLoopEffect | hk_save_editor.py:168-173 | after loop iterations i..40, every `gotCharm_j` is true, every `newCharm_j` and `equippedCharm_j` is false, and every other key is untouched |
| Presets.UnlockAllCharmsEffect | hk_save_editor.py:157-184 | `unlock_all_charms` sets `gotCharm_i` true and `newCharm_i`, `equippedCharm_i` false for i in 1..40; sets `equippedCharms` to `[]`; sets the fixed charm keys to their listed values; leaves every other key of `playerData` as it was |
| Presets.ApplyAllIsOnePreset | hk_save_editor.py:325-330 | menu option 6 equals a single preset making all five presets' assignments in menu order, and fails exactly as the first preset would |
| Presets.ApplyAllOutcome | hk_save_editor.py:325-330 | `ApplyAll` (menu option 6) raises exactly when, and with the error that, the first preset would, and otherwise changes only `playerData` at the top level |

## Left out

- File access (`FileNotFoundError`, reading and writing `user.dat`): I/O. The codec works on the bytes that were read.
- `find_save_games_directory`, the interactive menu apart from option 6's composition, and backup/restore with `shutil.copy2`: OS and filesystem side effects.
- The AES key schedule and round function: a foreign library. `Ecb.BlockCipher` is a parameter, and the round-trip lemmas require `Ecb.Inverts`. The key `AES_KEY` is passed to it as a constant.
- `json.dumps`/`json.loads` and UTF-8: standard-library parsers. `Json.JsonText` is a parameter, and the record round-trip requires `Json.Faithful`. JSON floats are not modelled; numbers are integers.
- Key order of JSON objects: Python dicts keep insertion order, and `json.dumps` writes keys in that order. So a preset's new keys come after the existing ones, and a newly created `playerData` comes last in the record. `Json.JObj` is a map, so the model does not represent key order, and `SaveRoundTrip` and `ReencodeStable` speak of equal values and of the byte string a given `JsonText` writes for them.
- The `print` calls in the presets: console output only.
- The `except ValueError` handlers around padding and encryption in `encode_hollow_knight_save` cannot fire: padded data is always whole blocks. `EncodePlain` is therefore total rather than returning an error.
- The strict base-64 mode (`validate=True`) is not used by the code and is not modelled. The decoder follows the non-strict scan of CPython 3.7 and later.
- Base64.DecodeFrom: its own contract only says that output grows, and bounds how much. What it decodes to is stated by `DecodeEncode`, `JunkIgnored`, `DataOnlyOutcome` and `ShortPaddingRejected`.
- SaveCodec.DecodePlain: its own contract states only the framing rejections. The later stages are stated by `PlainRoundTrip` (success), `UnalignedArmorRejected` (base-64 stage), `UnalignedCiphertextRejected` (decryption stage), and `EmptyCiphertextRejected` and `UnpaddableRejected` (unpadding stage).
