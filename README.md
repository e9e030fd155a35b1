# JardinSeguro core, modelled in Dafny

JardinSeguro is a password manager that shows each stored secret as a plant in
a garden. The plant's type follows the secret's strength score, and its growth
stage rises each time the secret is used or updated. This project models the
parts of the application that hold its rules:

- **Utils** (`lib/utils.ts`): the 0-100 strength score and its five presentation
  bands (colour and label), the plant-icon lookup, and the random-password
  generator.
- **Codec**: the Base16 and Base64 encodings of sections 8 and 4 of RFC 4648 as
  Node's `Buffer` writes and (leniently) reads them, and `String.prototype.split`
  on one character.
- **Encryption** (`lib/encryption.ts`): the stored envelope `hex(iv) ":" base64(ciphertext)`,
  key derivation, encryption and decryption. The cipher and PBKDF2 are opaque
  functions with an assumed round trip. The file's copy of the strength function
  is also modelled.
- **Db** (`lib/db.ts`): the SET-clause and parameter lists `updatePassword`
  builds from a partial update, the placeholder numbering inside them, and the
  strength-to-plant classifier.
- **Garden** (`components/garden-view.tsx`): the search filter, the capped
  growth-stage bump after a copy, and the favourite toggle, as pure list functions.
- **Middleware** (`middleware.ts`): the redirect decision for signed-in and
  signed-out visitors.

A clause of the UPDATE statement is modelled as a value: `Assign(column, n)`
stands for `column = $n`, `IncrementGrowthStage` for
`growth_stage = growth_stage + 1`, and `TouchUpdatedAt` for
`updated_at = CURRENT_TIMESTAMP`. `Db.UpdatePassword` builds the list push by
push, as the source does. `Db.Statement` states what it must hold:

- which columns appear, and in which order;
- which value each parameter carries;
- where the `id` and `user_id` placeholders point;
- how each placeholder is numbered.

## Model

| member | source | states |
|---|---|---|
| Utils.CalculatePasswordStrength | lib/utils.ts:80-123 | the accumulated score equals the reference score `Strength` (length bonus min(4·len, 40) counted in UTF-16 units, +10/+10/+10/+15 per character class, +5 per two-way combination), lies in 0..100, and is 0 for the empty string |
| Utils.StrengthIsRawScore | lib/utils.ts:86-122 | the uncapped sum never exceeds 100, so the final `Math.min(score, 100)` never lowers it |
| Utils.LengthBonus | lib/utils.ts:86 | the length bonus lies in 0..40 and is 40 exactly when the string is at least 10 UTF-16 units long |
| Utils.RawScore | lib/utils.ts:81-119 | the uncapped score lies in 0..100 and is 0 for the empty string |
| Utils.Strength | lib/utils.ts:80-123 | the score `calculatePasswordStrength` returns lies in 0..100, is 0 for the empty string, and is never below the length bonus otherwise |
| Utils.ComboPairsDisjoint | lib/utils.ts:109-119 | each combination regex pairs two disjoint character classes |
| Utils.EitherOrderNeedsBoth | lib/utils.ts:109-119 | a combination bonus is awarded only when both classes occur |
| Utils.EitherOrderIffBoth | lib/utils.ts:109-119 | without a line terminator, a combination bonus is awarded iff both classes occur, in either order |
| Utils.ContainsByChars | lib/utils.ts:89-106 | a class bonus depends only on the set of characters, not on their positions |
| Utils.StrengthOrderIndependent | lib/utils.ts:80-123 | two line-terminator-free strings with the same characters and UTF-16 length score the same |
| Utils.ContainsExtended | lib/utils.ts:89-106 | a class found in a string is still found after text is added on either side |
| Utils.FollowsExtended | lib/utils.ts:109-119 | an ordered pair of classes found in a string is still found after text is added on either side |
| Utils.EitherOrderExtended | lib/utils.ts:109-119 | a combination found in a string is still found after text is added on either side |
| Utils.ClassBonusExtended | lib/utils.ts:89-106 | adding text on either side never loses a class bonus |
| Utils.ComboBonusExtended | lib/utils.ts:109-119 | adding text on either side never loses a combination bonus |
| Utils.Utf16LengthConcat | lib/utils.ts:86 | the UTF-16 length of a concatenation is the sum of the lengths |
| Utils.StrengthMonotoneUnderExtension | lib/utils.ts:80-123 | adding text on either side of a password never lowers its score |
| Utils.Utf16LengthBmp | lib/utils.ts:86 | for characters below U+10000, `length` is the number of characters |
| Utils.StrengthLowerBound | lib/utils.ts:86-106 | a non-empty password scores at least its length bonus plus 10, since every character is in some class |
| Utils.LowerOnlyBonuses | lib/utils.ts:89-119 | an all-lowercase password gets only the lowercase class bonus and no combination bonus |
| Utils.StrengthOfPassword | lib/utils.ts:80-123 | "password" scores 32 + 10 = 42 |
| Utils.MixedClassBonus | lib/utils.ts:89-106 | "P@ssw0rd123" earns all four class bonuses, 45 |
| Utils.MixedComboBonus | lib/utils.ts:109-119 | "P@ssw0rd123" earns all three combination bonuses, 15 |
| Utils.StrengthOfMixed | lib/utils.ts:80-123 | "P@ssw0rd123" scores 100 |
| Utils.LineTerminatorBlocksCombo | lib/utils.ts:109-111 | "a\nB" has a lowercase and an uppercase letter but no lower/upper combination, because `.` does not match a newline |
| Utils.CharacterOrderMatters | lib/utils.ts:109-119 | "a\nB" and "aB\n" have the same characters but score 52 and 57 |
| Utils.StrengthBand | lib/utils.ts:34-48 | the 80/60/40/20 thresholds give one of five bands |
| Utils.GetStrengthColor | lib/utils.ts:34-40 | the colour is the band's entry in the colour table |
| Utils.GetStrengthLabel | lib/utils.ts:42-48 | the label is the band's entry in the label table |
| Utils.StrengthBandMonotone | lib/utils.ts:34-48 | a higher score never gets a lower band |
| Utils.ColorLabelPaired | lib/utils.ts:34-48 | two scores get the same colour iff they get the same label iff they are in the same band |
| Utils.PlantTable | lib/utils.ts:53-64 | every plant's icon table has five entries and starts with the sprout |
| Utils.GetPlantIcon | lib/utils.ts:50-65 | the stage is clamped into 1..5, so the icon is always an entry of the plant's table: stage s in 1..5 gives entry s-1, below 1 gives the sprout, above 5 gives the last entry |
| Utils.UnknownPlantIsSeed | lib/utils.ts:62-64 | any unknown plant type shows the "semente" icons |
| Utils.GenerateRandomPassword | lib/utils.ts:68-77 | the result has exactly `length` characters (none for a negative length), and character i is the charset entry at draw i |
| Utils.CharsetIsAscii | lib/utils.ts:69 | the charset has 91 ASCII characters |
| Utils.GeneratedStrengthLowerBound | lib/utils.ts:68-123 | a non-empty generated password scores at least min(4·len, 40) + 10 |
| Codec.HexDigit | lib/encryption.ts:22 | a nibble is written as a lowercase hex digit |
| Codec.HexEncode | lib/encryption.ts:22 | `toString("hex")` writes two lowercase hex digits per byte |
| Codec.HexDecode | lib/encryption.ts:28 | `Buffer.from(s, "hex")` yields at most half as many bytes as characters |
| Codec.HexDigitValue | lib/encryption.ts:22-28 | reading a written hex digit gives back its nibble |
| Codec.HexRoundTrip | lib/encryption.ts:22-28 | hex-decoding the hex encoding gives back the bytes |
| Codec.HexDecodeStopsAtNonDigit | lib/encryption.ts:28 | hex decoding stops at the first character that is not a hex digit |
| Codec.Base64Char | lib/encryption.ts:18-19 | no Base64 character is '=' or ':' |
| Codec.Base64CharValue | lib/encryption.ts:18-38 | reading a written Base64 character gives back its sextet |
| Codec.ToSextets | lib/encryption.ts:18-19 | n bytes become ceil(4n/3) sextets |
| Codec.FromSextets | lib/encryption.ts:38 | n sextets become floor(3n/4) bytes |
| Codec.Base64Chars | lib/encryption.ts:18-19 | each sextet becomes its alphabet character |
| Codec.Base64Encode | lib/encryption.ts:18-19 | the padded encoding has a length divisible by 4 and contains no ':' |
| Codec.EncodedLength | lib/encryption.ts:18-19 | sextets plus padding come to a multiple of 4 characters |
| Codec.ReadSextets | lib/encryption.ts:38 | the decoder reads at most one sextet per character |
| Codec.Base64Decode | lib/encryption.ts:38 | `Buffer.from(s, "base64")` never fails and yields at most three bytes per four characters |
| Codec.GroupRoundTrip | lib/encryption.ts:18-38 | three bytes split into four sextets and rejoined give back the bytes |
| Codec.SextetsRoundTrip | lib/encryption.ts:18-38 | joining the sextets of a byte string gives it back |
| Codec.ReadSextetsOfChars | lib/encryption.ts:38 | the decoder reads written sextets back and stops at padding |
| Codec.Base64RoundTrip | lib/encryption.ts:18-38 | Base64-decoding the encoding gives back the bytes |
| Codec.Split | lib/encryption.ts:27 | `split(":")` always yields at least one part, and at least two iff the text holds a ':' |
| Codec.JoinSplit | lib/encryption.ts:27 | joining the parts with the separator gives back the string |
| Codec.SplitWithoutSeparator | lib/encryption.ts:27-29 | a string without the separator splits into itself alone, so part 1 is missing |
| Codec.SplitAfterPrefix | lib/encryption.ts:22-27 | a separator-free prefix followed by the separator becomes the first part |
| Codec.SplitJoin | lib/encryption.ts:22-27 | separator-free parts joined and split again give back the parts |
| Encryption.KeyMaterial | lib/encryption.ts:4 | an unset or empty secret falls back to the literal, so the key material is never empty and there is no failure path |
| Encryption.DeriveKey | lib/encryption.ts:12-32 | both functions derive the key with the same constant arguments, and a sound library gives a 32-byte key |
| Encryption.Envelope | lib/encryption.ts:22 | the envelope is the IV hex, ':' and the Base64 ciphertext, and its only ':' is the one right after the 2·16 hex digits |
| Encryption.Decrypt | lib/encryption.ts:25-42 | decryption fails with an IV error iff the first part does not hex-decode to 16 bytes, with a missing-ciphertext error iff the IV is right but there is no ':', and succeeds only when the text holds a ':' |
| Encryption.EnvelopeParts | lib/encryption.ts:22-29 | an envelope splits into exactly the IV hex and the ciphertext text, and each decodes back |
| Encryption.DecryptEnvelope | lib/encryption.ts:7-42 | with a sound cipher, decrypting the envelope made with any 16-byte IV returns the plaintext |
| Encryption.DecryptIgnoresExtraParts | lib/encryption.ts:27-29 | text after a second ':' is ignored |
| Encryption.DecryptWithoutDelimiter | lib/encryption.ts:27-39 | text without ':' always fails: on the IV when its hex is not 16 bytes, otherwise because the ciphertext part is missing |
| Encryption.DecryptNotAnEnvelope | lib/encryption.ts:28-35 | "not-a-valid-envelope" fails when the decipher is created |
| Encryption.EncryptPassword | lib/encryption.ts:7-23 | the envelope is 32 lowercase hex characters, ':', then the Base64 ciphertext under the derived key, and it decrypts to the password |
| Encryption.DecryptPassword | lib/encryption.ts:25-42 | the stepwise method computes exactly `Decrypt`, so the failure cases and the round trip proved about `Decrypt` hold for it |
| Encryption.CalculatePasswordStrength | lib/encryption.ts:44-87 | the copy scores every password exactly as lib/utils.ts does, in 0..100 |
| Db.PlantBand | lib/db.ts:182-188 | the 90/70/50/30 thresholds give one of five bands |
| Db.GetPlantTypeByStrength | lib/db.ts:182-188 | the plant type is the band's entry of semente/grama/arbusto/flor/arvore |
| Db.PlantTypeMonotone | lib/db.ts:182-188 | the band is monotone in strength, and two strengths get the same plant iff they are in the same band |
| Db.ColumnAt | lib/db.ts:87-136 | the k-th column in statement order has rank k |
| Db.ColumnOrderAt | lib/db.ts:87-136 | the eleven columns are in source order: title, username, password_encrypted, strength, plant_type, growth_stage, website, category, notes, favorite, updated_at |
| Db.SelectWrites | lib/db.ts:87-136 | a column is selected iff it is in the list and the update writes it |
| Db.SelectOrdered | lib/db.ts:87-136 | selecting from an ordered column list keeps it ordered |
| Db.ExpectedColumns | lib/db.ts:87-136 | a SET clause appears iff its field is defined (strength, plant_type and growth_stage need the new encrypted password too), in source order, with updated_at last, so the list is never empty |
| Db.StrengthNeedsPassword | lib/db.ts:97-113 | without a new encrypted password, a strength on its own is dropped together with plant_type and growth_stage |
| Db.SelectNext | lib/db.ts:87-136 | taking one more column of the order appends it iff the update writes it |
| Db.Assigns | lib/db.ts:87-133 | parameterised clauses never outnumber the clauses |
| Db.ClauseValuesLength | lib/db.ts:84-133 | one value is pushed per parameterised clause |
| Db.ClauseValuesAt | lib/db.ts:84-133 | the value of the i-th parameterised clause is the field that clause assigns |
| Db.AssignsAll | lib/db.ts:87-136 | every clause takes a parameter iff the number of parameterised clauses equals the number of clauses |
| Db.BuiltStep | lib/db.ts:87-133 | one if-push block extends a correctly built prefix by one column |
| Db.DraftBuilt | lib/db.ts:84-136 | after the first k blocks the lists hold exactly the clauses and values of the first k columns |
| Db.DraftStatement | lib/db.ts:84-149 | the finished lists, with id and user_id appended, form the statement |
| Db.PushField | lib/db.ts:87-133 | one `if (field !== undefined) { updateFields.push(...); values.push(...) }` block advances the lists by one column |
| Db.BuildUpdate | lib/db.ts:69-153 | the statement has the expected clauses in order; values are the assigned fields followed by id and userId; the WHERE placeholders are the last two positions; clauses are numbered by the chosen rule |
| Db.UpdatePassword | lib/db.ts:69-153 | as written: each placeholder is one more than the number of clauses pushed before it |
| Db.UpdatePasswordCorrected | lib/db.ts:69-153 | corrected: each placeholder is one more than the number of values pushed before it |
| Db.PlaceholdersBindOwnValues | lib/db.ts:84-149 | with corrected numbering, every `$n` of a SET clause points at that clause's own value, and the WHERE placeholders point at id and userId |
| Db.AsWrittenNumberingIff | lib/db.ts:88-145 | as written, the numbering is correct iff no website, category, notes or favorite clause follows the growth_stage clause |
| Db.MisNumberedBreaks | lib/db.ts:111-133 | as written, a parameterised clause after growth_stage gets a placeholder one past its value |
| Db.WellNumbered | lib/db.ts:87-133 | as written, the numbering is correct when no parameterised clause follows growth_stage |
| Db.WebsiteTakesIdSlot | lib/db.ts:97-149 | with encrypted password, strength and website, website is written as `$5`, its value is 4th, and `$5` is also the id placeholder; no clause uses `$4` |
| Db.ExpectedOfExample | lib/db.ts:87-136 | that update writes password_encrypted, strength, plant_type, growth_stage, website, updated_at |
| Db.ExampleFirstColumns | lib/db.ts:87-113 | its first six columns select password_encrypted, strength, plant_type, growth_stage |
| Db.UpdatedGrowthStage | lib/db.ts:111 | updating the password raises the growth stage by one, with no cap |
| Db.LastUsedGrowthStage | lib/db.ts:168 | recording a use raises the stage by one but never above 5 |
| Db.GrowthStageUncapped | lib/db.ts:111-168 | from stage 5 an update goes above 5 while a use stays at 5 |
| Garden.ToLower | components/garden-view.tsx:45-49 | lowercasing keeps the length and maps each character |
| Garden.Includes | components/garden-view.tsx:46-48 | `includes` finds t only in a string at least as long, and always finds the empty string |
| Garden.Matches | components/garden-view.tsx:45-49 | the filter predicate holds for every row when the term is empty |
| Garden.KeepMatching | components/garden-view.tsx:44-50 | a row is kept iff it is in the list and matches the term; every copy of a matching row is kept and every copy of another row is dropped |
| Garden.FilterPasswords | components/garden-view.tsx:43-54 | an empty term shows the whole list; otherwise an entry is shown iff it matches |
| Garden.KeepMatchingSubsequence | components/garden-view.tsx:44-50 | the filter keeps entries in their order |
| Garden.FilterSubsequence | components/garden-view.tsx:43-54 | the shown list is an order-preserving subsequence of the list |
| Garden.SubsequenceOfSelf | components/garden-view.tsx:52-53 | the whole list is a subsequence of itself |
| Garden.EmptyTermMatchesAll | components/garden-view.tsx:43-53 | filtering by the empty term would keep every entry, so the `if (searchTerm)` test does not change the result |
| Garden.NullFieldsNeverMatch | components/garden-view.tsx:47-48 | a row whose website and category are null matches only through its title or username |
| Garden.ToLowerConcat | components/garden-view.tsx:45 | lowercasing distributes over concatenation |
| Garden.IncludesPrefix | components/garden-view.tsx:46-48 | a string that includes t + u includes t |
| Garden.MatchesNarrowing | components/garden-view.tsx:45-49 | a row matching a longer term matches its prefix |
| Garden.FilterNarrows | components/garden-view.tsx:44-50 | extending the term only removes entries, keeping the rest in order |
| Garden.CopiedGrowth | components/garden-view.tsx:68-70 | only entries with the copied id change, to stage min(stage+1, 5); the length is kept |
| Garden.CopiedGrowthCapped | components/garden-view.tsx:69 | after a copy the stage is at most 5; a stage at or above 5 becomes 5, and one below 5 rises by one |
| Garden.RepeatedCopies | components/garden-view.tsx:68-70 | n copies set the entry's stage to min(stage+n, 5) and leave the others unchanged |
| Garden.ToggledFavorite | components/garden-view.tsx:86 | only entries with the id flip their favourite flag; ids and length are kept |
| Garden.ToggleTwice | components/garden-view.tsx:86 | toggling twice restores the list |
| Garden.TogglesCommute | components/garden-view.tsx:86 | toggles of two ids commute |
| Garden.CopyAndToggleCommute | components/garden-view.tsx:68-86 | a copy bump and a favourite toggle commute |
| Middleware.Decide | middleware.ts:9-21 | the request passes iff the visitor is signed in exactly when the path is not public; a signed-out visitor is redirected to /login and a signed-in one to / |
| Middleware.IsPublic | middleware.ts:9-12 | exactly "/login" and "/register" are public, and "/" is not |
| Middleware.NoRedirectLoop | middleware.ts:12-19 | following a redirect never redirects again for the same visitor |
| Middleware.SignedOutOnlyReachesPublic | middleware.ts:9-14 | a signed-out visitor passes only on /login and /register |
| Middleware.NearMissesAreNotPublic | middleware.ts:9-12 | membership is exact: "/login/" and "/LOGIN" are not public |
| Middleware.SignedInDecision | middleware.ts:17-21 | a signed-in user is sent home from the public pages and passes elsewhere |

## Left out

- Cipher and key derivation internals: AES-256-CBC, PBKDF2-SHA512 and the UTF-8 conversion of the plaintext are library functions passed in as a `CryptoLib`. The model assumes only that the key has the requested length and that decryption undoes encryption.
- The random IV of `crypto.randomBytes(16)` is an input, so its freshness is not modelled.
- `Math.random` in `generateRandomPassword` is replaced by an injected sequence of indices into the charset. The float multiply and `Math.floor` are left out.
- Strings are sequences of Unicode scalar values. Lone UTF-16 surrogates cannot be represented. `length` is modelled by counting characters above U+FFFF twice.
- `toLowerCase` is modelled on ASCII letters only. Unicode case mapping is not modelled.
- JavaScript numbers are modelled as unbounded integers. Fractional and NaN strengths are not modelled.
- Database I/O is not modelled: the Neon connection, the query text rendering, `RETURNING *` and the other queries of lib/db.ts. `updateLastUsed` is modelled only by its growth-stage expression.
- Authentication (`lib/auth.ts`) is not part of this model. The middleware takes the signed-in user as an input, and `config.matcher` is not modelled.
- Server actions, route handlers, the service worker and the rendering components are not part of this model. Neither are the React state setters, toast and clipboard calls around the garden-view list functions.
- `formatDate`, `formatDateTime` and `cn` wrap `Intl.DateTimeFormat` and class-name libraries and are not modelled.
- Db.UpdatePassword: the `return null` after the clause list is built (lib/db.ts:138-140) is not modelled. `updated_at` is always pushed before that check, so the branch is unreachable; `Db.ExpectedColumns` proves the list is never empty.
- Encryption.DecryptPassword: the error values name which library call throws; the exception messages are not modelled.

## Findings

| source | as written | input that shows it | evidently intended | confidence | as-written member | corrected member |
|---|---|---|---|---|---|---|
| lib/db.ts:88-145 | every parameterised SET clause is numbered `$(updateFields.length + 1)`. After the parameter-less `growth_stage = growth_stage + 1` clause, that number runs one ahead of the clause's position in `values` | an update with encryptedPassword, strength and website gives website `$5`, but its value is 4th; `$5` is also the `WHERE id` placeholder, and no clause uses `$4` | number each clause by the values pushed so far, `$(values.length + 1)`, so each placeholder binds its own field | not executed | Db.UpdatePassword, Db.AsWrittenNumberingIff, Db.WebsiteTakesIdSlot | Db.UpdatePasswordCorrected, Db.PlaceholdersBindOwnValues |
