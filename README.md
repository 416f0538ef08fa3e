# reccmp's address-correlation core, modelled in Dafny

reccmp compares an original binary with the binary recompiled from a
decompilation project. Its core is the entity database of
`reccmp/isledecomp/compare/`. That database holds one row per entity, keyed
by an address in the original binary (orig), an address in the recompiled
binary (recomp), or both. The matching passes pair orig and recomp
addresses by name, rank, string content, debug line or reference chain,
and they stage every change in an `EntityBatch` that one `commit` applies.
Around the core sit the pieces that feed it:

- two older anchor-based key/value stores;
- the decomp annotation reader (`DecompParser`, `CurlyManager`) and the
  conditional-compilation filter in front of it;
- the cvdump symbol and field-list readers;
- the PDB decoders: MSF container, DBI stream, TPI type records and field
  lists, numeric leaves;
- the New Executable format (header, segments, relocation chains, entry
  table, resource table, in-place relocation patching);
- the ELF file header;
- the stub generator's text helpers.

How the model is built:

- SQL tables are maps, and SQL views and statements are functions on them.
- Python exceptions are `Result` errors.
- Byte buffers are sequences of integers in 0..255, read little-endian as
  `struct` does. A read that runs off the end is `struct.error`.
- Where the source changes state in place, the model is a class with the
  same fields. This covers `EntityBatch`, `EntityDb`, `EntityIndex`,
  `LinesDb`, the stores, `DecompParser`, `CurlyManager`,
  `CvdumpSymbolsParser`, the NE image view and the codegen name cache.
  Each method there is proved to leave the state a specification function
  gives. Where the source loops, the loop is a method proved against a
  recursive definition.
- One module per source file; shared helpers live in `wrappers`, `bytes`,
  `order`, `pydict` and `struct_format`.

## Model

| member | source | states |
|---|---|---|
| JsonBag.Patch | reccmp/isledecomp/compare/db.py:359-365 | `json_patch` (section 2 of RFC 7396): patch members win, a null member deletes its key, other keys keep their values |
| JsonBag.Set | reccmp/isledecomp/storage.py:56-66 | `json_set`: every given key takes its new value, every other key is kept |
| JsonBag.Insert | reccmp/isledecomp/storage.py:56-61 | `json_insert`: keys already present keep their values, missing keys are added |
| JsonBag.PatchIdempotent | reccmp/isledecomp/compare/db.py:359-365 | applying the same merge patch twice changes nothing more |
| JsonBag.PatchCompose | reccmp/isledecomp/compare/db.py:261-275 | two merges in a row equal one merge of the keyword dictionaries combined with later values winning |
| JsonBag.PatchExistingWins | reccmp/isledecomp/db.py:56-71 | `json_patch(stored, json_patch(new, stored))` keeps every stored member and adds only the non-null new members whose key is missing |
| JsonBag.PatchKeepsNoNulls | reccmp/isledecomp/compare/db.py:359-365 | a merged bag never holds a null member |
| CompareDb.TypeFromValue | reccmp/isledecomp/types.py:6-18 | `EntityType(value)` succeeds only on a member's value, and gives that member |
| CompareDb.TypeValueRoundTrip | reccmp/isledecomp/compare/db.py:87-89 | every type's value parses back to it, and is the lower-case form of the name `EntityTypeLookup` shows |
| CompareDb.Matched | reccmp/isledecomp/compare/db.py:133-135 | `matched` holds iff both addresses are set |
| CompareDb.Attr | reccmp/isledecomp/compare/db.py:137-138 | `get(key, default)` gives the stored value or the default for an absent key |
| CompareDb.SizeOf | reccmp/isledecomp/compare/db.py:128-131 | a missing size reads as 0 |
| CompareDb.BestName | reccmp/isledecomp/compare/db.py:140-147 | `computed_name` if set, else `name`, else None |
| CompareDb.TypeLabel | reccmp/isledecomp/compare/db.py:157 | an unset type shows "UNK", a known value shows its member name |
| CompareDb.MatchName | reccmp/isledecomp/compare/db.py:149-158 | `"<best name> (<type name>)"`, None exactly when there is no best name |
| CompareDb.OffsetName | reccmp/isledecomp/compare/db.py:160-164 | `"<name>+<ofs> (OFFSET)"`, None exactly when `name` is unset |
| CompareDb.EntityAtOrig | reccmp/isledecomp/compare/db.py:99-106 | a row read by orig address has that address, so at least one address |
| CompareDb.EntityAtRecomp | reccmp/isledecomp/compare/db.py:99-106 | a row read by recomp address has that address, so at least one address |
| CompareDb.UniqueAddresses | reccmp/isledecomp/compare/db.py:13-16 | in a well-formed table no two rows share an orig address or a recomp address, and every row has an address |
| CompareDb.InsertOrig | reccmp/isledecomp/compare/db.py:356-370 | INSERT OR IGNORE leaves an existing orig row untouched; the upsert merges the new bag into it; other rows and links are unchanged and uniqueness is kept |
| CompareDb.InsertRecomp | reccmp/isledecomp/compare/db.py:372-386 | the same on the recomp address, matched rows included; every other orig row and every other recomp-only row keeps its bag |
| CompareDb.MatchMerge | reccmp/isledecomp/compare/db.py:394-405 | when the pair joins an orig-only and a recomp-only row, the recomp row's bag becomes the orig bag merged under the recomp bag's non-null members (`json_patch(o.kvstore, json_patch('{}', kvstore))`); otherwise nothing changes; orig rows, links and every other recomp row are unchanged |
| CompareDb.MatchOneMerges | reccmp/isledecomp/compare/db.py:394-410 | bulk_match of one orig-only and one recomp-only row leaves one matched row at the orig address, linked to the recomp address, holding the orig bag under the recomp bag's non-null members; the recomp-only row is gone |
| CompareDb.DeleteOrigRow | reccmp/isledecomp/compare/db.py:406-410 | the REPLACE resolution deletes the row holding the orig address and no other |
| CompareDb.MatchLink | reccmp/isledecomp/compare/db.py:406-410 | a recomp-only row takes the orig address and keeps its bag; without such a row nothing changes |
| CompareDb.SetRecompAddr | reccmp/isledecomp/compare/db.py:412-420 | fills the recomp address only on an orig row without one; a recomp address already used raises IntegrityError; otherwise nothing changes; on success every bag and every earlier link stays as it was |
| CompareDb.SetPair | reccmp/isledecomp/compare/db.py:521-533 | False and no change when orig is used; otherwise the row holding recomp takes orig with `type` overwritten, and the result is whether such a row existed; every other orig and recomp row keeps its bag |
| CompareDb.GetByOrig | reccmp/isledecomp/compare/db.py:454-466 | exact: the row at the address; otherwise the row with the greatest orig address not above it, None iff there is none |
| CompareDb.GetByRecomp | reccmp/isledecomp/compare/db.py:468-480 | the same over recomp addresses, matched rows included |
| CompareDb.NextOrigAddr | reccmp/isledecomp/compare/db.py:535-554 | the least orig address above `addr` whose type is set and is not LINE; None iff there is none (an untyped row fails the SQL comparison) |
| CompareDb.OrigUnmatched | reccmp/isledecomp/compare/db.py:60-63 | every orig-only row, once, in ascending orig address |
| CompareDb.RecompUnmatched | reccmp/isledecomp/compare/db.py:65-68 | every recomp-only row, once, in ascending recomp address |
| CompareDb.MatchesByType | reccmp/isledecomp/compare/db.py:482-491 | every matched row of the type, in ascending orig address |
| CompareDb.EntityDb.BulkOrigInsert | reccmp/isledecomp/compare/db.py:356-370 | the table after the statement for every row in order |
| CompareDb.EntityDb.BulkRecompInsert | reccmp/isledecomp/compare/db.py:372-386 | the table after the statement for every row in order |
| CompareDb.EntityDb.SetOrigSymbol | reccmp/isledecomp/compare/db.py:350-351 | an insert-or-ignore of one orig row |
| CompareDb.EntityDb.SetRecompSymbol | reccmp/isledecomp/compare/db.py:353-354 | an insert-or-ignore of one recomp row |
| CompareDb.EntityDb.BulkMatch | reccmp/isledecomp/compare/db.py:388-410 | the merge statement over all pairs, then the link statement over all pairs |
| CompareDb.EntityDb.BulkSetRecompAddr | reccmp/isledecomp/compare/db.py:412-420 | every pair in order; a UNIQUE violation fails the whole call and leaves the table as it was |
| CompareDb.EntityDb.SetPairOf | reccmp/isledecomp/compare/db.py:521-533 | the table and result of SetPair, None stored as a null type |
| CompareDb.SetRecompAddrErrSticks | reccmp/isledecomp/compare/db.py:412-420 | once one statement of the list fails, the whole call fails |
| EntityName.EntityNameFromString | reccmp/isledecomp/compare/db.py:80-84 | the name ends with `"` and starts with `"`, or with `L"` for a wide string |
| EntityName.UnicodeEscape | reccmp/isledecomp/compare/db.py:83 | the `unicode_escape` form holds printable ASCII only |
| EntityName.UnescapeRoundTrip | reccmp/isledecomp/compare/db.py:83 | unescaping the escaped body gives the text back, so no character is lost |
| EntityName.NameRoundTrip | reccmp/isledecomp/compare/db.py:80-84 | the text and the width can be read back out of the name |
| EntityName.NameInjective | reccmp/isledecomp/compare/db.py:80-84 | two texts give the same name only if they are the same text with the same width |
| TextCodec.DecodeLatin1 | reccmp/isledecomp/compare/db.py:598 | latin1 maps each byte to the character of the same value |
| TextCodec.Latin1RoundTrip | reccmp/isledecomp/compare/db.py:598 | encoding the decoded text gives the bytes back |
| TextCodec.DecodeAscii | reccmp/formats/pdb/common.py:35 | ASCII decoding succeeds iff every byte is below 0x80, and then agrees with latin1 |
| TextCodec.DecodeUtf16Le | reccmp/isledecomp/compare/db.py:596 | an odd number of bytes never decodes |
| TextCodec.Utf16RoundTrip | reccmp/isledecomp/compare/db.py:596 | every string encoded as UTF-16LE decodes back |
| TextCodec.DecodedUnitsEncode | reccmp/isledecomp/compare/db.py:596 | a successful decode re-encodes to the same code units |
| EntityBatches.Stage | reccmp/isledecomp/compare/db.py:245-275 | `setdefault(addr, {}).update(kwargs)`: later keywords win, other addresses are unchanged, a new address goes last |
| EntityBatches.StageAccumulates | reccmp/isledecomp/compare/db.py:261-275 | two stagings at one address equal one staging of the merged keywords |
| EntityBatches.TypeTag | reccmp/isledecomp/compare/db.py:247-248 | a truthy `type` keyword must be a type's value, else ValueError; a falsy one stages no type |
| EntityBatches.Note | reccmp/isledecomp/compare/db.py:247-251 | the type is recorded when given, the label when `name` is truthy, at (img, addr) |
| EntityBatches.StageMatch | reccmp/isledecomp/compare/db.py:277-283 | `match` as written: an earlier claim on the recomp address is dropped and the new pair is recorded both ways |
| EntityBatches.StageMatchKeepsLinked | reccmp/isledecomp/compare/db.py:277-283 | every staged orig->recomp pair stays in the reverse map, the staged map stays injective, and the earlier owner of the recomp address loses its pair |
| EntityBatches.StageMatchDropsRepairedOrig | reccmp/isledecomp/compare/db.py:277-283 | match(1,10), match(1,20), match(3,10) as written leaves orig 1 unpaired |
| EntityBatches.StageMatchFixed | reccmp/isledecomp/compare/db.py:277-283 | the staging that also releases the earlier recomp address of a re-paired orig |
| EntityBatches.StageMatchFixedKeepsInverse | reccmp/isledecomp/compare/db.py:277-283 | the corrected staging keeps both maps inverse to each other, and a pair survives unless one of its addresses is claimed again |
| EntityBatches.StageMatchFixedKeepsRepairedOrig | reccmp/isledecomp/compare/db.py:277-283 | on the same three calls the corrected staging keeps 1->20 |
| EntityBatches.Staged5 | reccmp/isledecomp/compare/db.py:291-304 | inserts, then upserts, then matches, in that order, keeping the table well formed |
| EntityBatches.CommitTable | reccmp/isledecomp/compare/db.py:288-321 | success iff every set_recomp_addr statement succeeds; on failure the table keeps what bulk_match's own transaction committed, or is unchanged without matches |
| EntityBatches.LabelsAfter | reccmp/isledecomp/compare/db.py:309-319 | as written, labels reach the table only when some type was staged |
| EntityBatches.LabelsIntended | reccmp/isledecomp/compare/db.py:315-319 | the intended step writes every staged label |
| EntityBatches.LabelWithoutTypeIsLost | reccmp/isledecomp/compare/db.py:315 | a label staged without a type is lost as written and kept by the intended step |
| EntityBatches.EntityBatch.constructor | reccmp/isledecomp/compare/db.py:221-231 | a new batch has nothing pending |
| EntityBatches.EntityBatch.Reset | reccmp/isledecomp/compare/db.py:233-243 | every pending map is emptied |
| EntityBatches.EntityBatch.NoteTypeAndLabel | reccmp/isledecomp/compare/db.py:247-251 | records the type and label, or fails with nothing recorded where `EntityType(...)` raises |
| EntityBatches.EntityBatch.InsertOrig | reccmp/isledecomp/compare/db.py:245-251 | stages the keywords for an insert at the orig address and records type and label |
| EntityBatches.EntityBatch.InsertRecomp | reccmp/isledecomp/compare/db.py:253-259 | the same for the recomp address |
| EntityBatches.EntityBatch.SetOrig | reccmp/isledecomp/compare/db.py:261-267 | stages the keywords for an upsert at the orig address and records type and label |
| EntityBatches.EntityBatch.SetRecomp | reccmp/isledecomp/compare/db.py:269-275 | the same for the recomp address |
| EntityBatches.EntityBatch.Match | reccmp/isledecomp/compare/db.py:277-283 | the match maps become StageMatch of the old ones, injectivity kept |
| EntityBatches.EntityBatch.SetRecompAddr | reccmp/isledecomp/compare/db.py:285-286 | a later address for the same orig overwrites the earlier one |
| EntityBatches.EntityBatch.Commit | reccmp/isledecomp/compare/db.py:288-321 | the table becomes CommitTable of the staged maps; on success types and labels are written and every map is emptied; on failure they are not written |
| EntityBatches.EntityBatch.ApplyTypesAndLabels | reccmp/isledecomp/compare/db.py:309-319 | types are added, labels only as LabelsAfter says |
| EntityBatches.EntityBatch.Exit | reccmp/isledecomp/compare/db.py:326-330 | with an exception the pending maps are emptied and the table is unchanged; otherwise the batch commits |
| EntityBatches.PStageAllFrame | reccmp/isledecomp/compare/db.py:245-275 | staging calls touch only their own map and the type and label tables |
| EntityBatches.PMatchAllFrame | reccmp/isledecomp/compare/db.py:277-283 | match calls touch only the two match maps |
| EntityBatches.DropLast | reccmp/isledecomp/compare/db.py:596-598 | `b[:-n]` drops the last n bytes, or gives empty bytes when there are fewer |
| EntityBatches.DecodeRow | reccmp/isledecomp/compare/db.py:593-600 | a wide row drops 2 bytes and decodes UTF-16LE, a narrow row drops 1 and decodes latin1; a decode error skips the row |
| EntityBatches.NameStep | reccmp/isledecomp/compare/db.py:602-609 | a decodable row stages its name on the orig address if set, else on the recomp address |
| EntityBatches.NamesStagedOrig | reccmp/isledecomp/compare/db.py:582-609 | every bag staged on the orig side is one `name` keyword, the entity name of the last decodable row for that address |
| EntityBatches.NamesStagedRecomp | reccmp/isledecomp/compare/db.py:582-609 | the same for the recomp side, which only recomp-only rows reach |
| EntityBatches.StageNames | reccmp/isledecomp/compare/db.py:584-609 | the loop stages exactly NamesStaged of the rows |
| EntityBatches.NameStrings | reccmp/isledecomp/compare/db.py:582-609 | stages a name for every decodable string row through a batch and commits it |
| MatchIndex.IndexAdd | reccmp/isledecomp/compare/match_msvc.py:23-24 | `add` appends the value to the key's list, creating the list if needed, and leaves other keys alone |
| MatchIndex.IndexPop | reccmp/isledecomp/compare/match_msvc.py:32-37 | `pop` returns the earliest value of the key, keeps the rest in order, and deletes the key iff its list empties |
| MatchIndex.Built | reccmp/isledecomp/compare/match_msvc.py:23-24 | an index built by `add` calls never holds an empty list |
| MatchIndex.BuiltIsFilter | reccmp/isledecomp/compare/match_msvc.py:23-24 | a built index holds, under each key, exactly the values added for it, in order, and holds the key iff some value was added |
| MatchIndex.EntityIndex.constructor | reccmp/isledecomp/compare/match_msvc.py:17-18 | a new index is empty |
| MatchIndex.EntityIndex.Add | reccmp/isledecomp/compare/match_msvc.py:23-24 | the entries become IndexAdd of the old entries |
| MatchIndex.EntityIndex.Get | reccmp/isledecomp/compare/match_msvc.py:26-27 | the key's values, or none |
| MatchIndex.EntityIndex.Count | reccmp/isledecomp/compare/match_msvc.py:29-30 | the number of values, positive exactly when `key in index` |
| MatchIndex.EntityIndex.Pop | reccmp/isledecomp/compare/match_msvc.py:32-37 | the entries and result are IndexPop of the old entries |
| MatchIndex.FirstKey | reccmp/isledecomp/compare/match_msvc.py:189-204 | the first of the keys to try that is present; the first key whenever it is present; None iff none is |
| MatchIndex.StepOutcome | reccmp/isledecomp/compare/match_msvc.py:69-87 | each orig row gets either one match with the earliest value of its first present key or one NO_MATCH, never both; NON_UNIQUE_SYMBOL is added iff values remain after the pop |
| MatchIndex.BuiltDistinct | reccmp/isledecomp/compare/match_msvc.py:48-58 | recomp rows with distinct addresses build an index in which no address appears twice |
| MatchIndex.PassUsesRecompOnce | reccmp/isledecomp/compare/match_msvc.py:60-80 | no recomp address is popped twice, so no two orig rows receive the same one |
| MatchIndex.PassMatchesAreKeyed | reccmp/isledecomp/compare/match_msvc.py:60-80 | every match pairs a probed orig row with a recomp address added under one of its keys |
| MatchIndex.PassOrigsAscending | reccmp/isledecomp/compare/match_msvc.py:60-80 | with orig rows in ascending address order, every orig row is matched at most once and the matches are in that order |
| MatchIndex.RunIndexPass | reccmp/isledecomp/compare/match_msvc.py:48-87 | the two loops (build the index, then pop per orig row) give exactly the matches and events of Pass |
| MatchIndex.BuildIndex | reccmp/isledecomp/compare/match_msvc.py:48-58 | the first loop builds Built(entries) |
| MatchIndex.ProbeStep | reccmp/isledecomp/compare/match_msvc.py:60-87 | one turn of the second loop is one Step |
| MatchMsvc.StrAttr | reccmp/isledecomp/compare/match_msvc.py:275-276 | `json_extract(kvstore, '$.key')` yields text exactly when the member is present and a JSON string, and then yields that string |
| MatchMsvc.Trunc | reccmp/isledecomp/compare/match_msvc.py:55-56 | `symbol[:255]`: a prefix of the symbol, of length min(len, 255) when truncating, the symbol itself otherwise |
| MatchMsvc.StagedPairsExact | reccmp/isledecomp/compare/match_msvc.py:139-149 | `match` called on pairs that share no orig and no recomp address stages them exactly as given, in both dictionaries |
| MatchMsvc.StageFresh | reccmp/isledecomp/compare/db.py:277-283 | staging a pair whose two addresses are new appends it to both dictionaries |
| MatchMsvc.MatchAllLinks | reccmp/isledecomp/compare/db.py:388-410 | after bulk_match of one-to-one pairs onto recomp-only rows, every orig address is linked to its recomp address |
| MatchMsvc.MergeAllKeepsRecompRows | reccmp/isledecomp/compare/db.py:388-410 | the merging half of bulk_match leaves the set of recomp-only rows as it is |
| MatchMsvc.MatchLinkKeeps | reccmp/isledecomp/compare/db.py:388-410 | linking one pair keeps every other link and consumes exactly its recomp-only row |
| MatchMsvc.LinkAllLinks | reccmp/isledecomp/compare/db.py:388-410 | linking one-to-one pairs links every orig to its recomp and keeps every recomp-only row not named by a pair |
| MatchMsvc.StageAll | reccmp/isledecomp/compare/match_msvc.py:139-149 | the loop of `batch.match` calls leaves the batch's dictionaries equal to StagedPairs |
| MatchMsvc.MatchPairAt | reccmp/isledecomp/compare/match_msvc.py:149 | one `batch.match` call takes the batch from the first i pairs staged to the first i + 1 |
| MatchMsvc.CommitMatches | reccmp/isledecomp/compare/match_msvc.py:139-149 | a `with db.batch()` block of matches commits MatchAll of the staged pairs and leaves types and labels alone |
| MatchMsvc.CommitOnlyMatches | reccmp/isledecomp/compare/db.py:288-330 | committing a batch that holds only matches applies those matches and succeeds |
| MatchMsvc.VtableKeyChosen | reccmp/isledecomp/compare/match_msvc.py:183-210 | the bare vtable name is chosen when there is no other base class and it is indexed; else the `{for ...}` name; no match iff neither applies |
| MatchMsvc.RecompKey | reccmp/isledecomp/compare/match_msvc.py:48-58 | which recomp-only rows enter each pass's index: those with a symbol, VTABLE rows with a name, DATA or untyped rows with a name; truncated keys are at most 255 long |
| MatchMsvc.ProbeOf | reccmp/isledecomp/compare/match_msvc.py:60-80 | which orig-only rows probe each index, with at least one key, NON_UNIQUE reported only by match_symbols, and static variables excluded from match_variables |
| MatchMsvc.SameAttributeSameKey | reccmp/isledecomp/compare/match_msvc.py:55-78 | symbols and variables pair rows exactly when their (truncated) symbols or names are equal |
| MatchMsvc.EntriesComplete | reccmp/isledecomp/compare/match_msvc.py:48-58 | every recomp row that has a key is indexed under it |
| MatchMsvc.EntriesContribute | reccmp/isledecomp/compare/match_msvc.py:48-58 | every index entry comes from a recomp row with that key and address |
| MatchMsvc.EntriesAscending | reccmp/isledecomp/compare/match_msvc.py:48-58 | index entries follow the ascending recomp addresses of the view |
| MatchMsvc.ProbesComplete | reccmp/isledecomp/compare/match_msvc.py:60-68 | every orig row that takes part makes its probe |
| MatchMsvc.ProbesFromRows | reccmp/isledecomp/compare/match_msvc.py:60-68 | every probe comes from an orig row of the pass |
| MatchMsvc.ProbesAscending | reccmp/isledecomp/compare/match_msvc.py:60-68 | probes follow the ascending orig addresses of the view |
| MatchMsvc.IndexPassSound | reccmp/isledecomp/compare/match_msvc.py:40-87 | each pair of an indexed pass joins an orig-only and a recomp-only row that share a key, and no orig or recomp address is used twice |
| MatchMsvc.KeyedWitness | reccmp/isledecomp/compare/match_msvc.py:69-80 | a keyed pair has the probe and the index entry that made it |
| MatchMsvc.KeyedSharesKey | reccmp/isledecomp/compare/match_msvc.py:69-80 | a pair keyed by the pass's own entries and probes joins rows sharing a key |
| MatchMsvc.IndexPassLinks | reccmp/isledecomp/compare/match_msvc.py:40-87 | after the commit every pair of an indexed pass is one matched row |
| MatchMsvc.MatchIndexed | reccmp/isledecomp/compare/match_msvc.py:40-87 | the shared shape of the index passes: returns the pass's events and commits exactly its pairs |
| MatchMsvc.MatchSymbols | reccmp/isledecomp/compare/match_msvc.py:40-87 | match_symbols reports NON_UNIQUE_SYMBOL and NO_MATCH as the pass does and commits its pairs |
| MatchMsvc.MatchVtables | reccmp/isledecomp/compare/match_msvc.py:152-210 | match_vtables reports NO_MATCH as the pass does and commits its pairs |
| MatchMsvc.MatchVariables | reccmp/isledecomp/compare/match_msvc.py:268-298 | match_variables reports NO_MATCH as the pass does and commits its pairs |
| MatchMsvc.OneToOneStaged | reccmp/isledecomp/compare/match_msvc.py:139-149 | one-to-one pairs use each address once and are staged as given |
| MatchMsvc.LabelPairs | reccmp/isledecomp/compare/match_msvc.py:140-149 | the orig and recomp address of each joined row, in order |
| MatchMsvc.LabelPairsOneToOne | reccmp/isledecomp/compare/match_msvc.py:99-119 | the label join pairs the k-th orig and k-th recomp row of a label, so no address occurs in two rows |
| MatchMsvc.AmbiguousEventsExact | reccmp/isledecomp/compare/match_msvc.py:141-148 | AMBIGUOUS_MATCH is reported exactly for the orig address of each row that is not unique |
| MatchMsvc.AmbiguousStep | reccmp/isledecomp/compare/match_msvc.py:141-148 | one row adds one AMBIGUOUS_MATCH report iff it is not unique |
| MatchMsvc.MatchFunctions | reccmp/isledecomp/compare/match_msvc.py:133-149 | match_functions reports the ambiguous rows and commits every pair of the FUNCTION label join |
| MatchMsvc.StageLabelRows | reccmp/isledecomp/compare/match_msvc.py:140-149 | the loop of match_functions stages exactly the join's pairs and returns the ambiguity reports |
| MatchMsvc.MatchStrings | reccmp/isledecomp/compare/match_msvc.py:301-319 | match_strings commits exactly the rows of the string join |
| MatchMsvc.MatchRef | reccmp/isledecomp/compare/match_msvc.py:370-385 | match_ref commits exactly the rows of the refs join |
| MatchMsvc.FirstCandidate | reccmp/isledecomp/compare/match_msvc.py:252-259 | the first row the inner query yields: it is a candidate and no earlier row is; None iff no row is |
| MatchMsvc.StaticStepPair | reccmp/isledecomp/compare/match_msvc.py:227-259 | a staged pair joins a static variable whose parent function has a symbol with the lowest recomp-only DATA-or-untyped row whose symbol contains the name and then the function symbol |
| MatchMsvc.UnmatchedIndex | reccmp/isledecomp/compare/db.py:60-68 | every recomp-only row appears in the recomp_unmatched view |
| MatchMsvc.StaticStepReports | reccmp/isledecomp/compare/match_msvc.py:240-265 | NO_MATCH is reported for a static variable exactly when it gets no pair |
| MatchMsvc.FindCandidate | reccmp/isledecomp/compare/match_msvc.py:252-259 | the `for ... break / else` loop returns FirstCandidate |
| MatchMsvc.StaticPassStep | reccmp/isledecomp/compare/match_msvc.py:227-265 | one outer row extends the pass by its own step |
| MatchMsvc.StageStatics | reccmp/isledecomp/compare/match_msvc.py:226-265 | the outer loop stages StaticPass's pairs and returns its events |
| MatchMsvc.StageStatic | reccmp/isledecomp/compare/match_msvc.py:239-265 | one row of the outer query stages its pair or returns its report |
| MatchMsvc.MatchStaticVariables | reccmp/isledecomp/compare/match_msvc.py:213-265 | match_static_variables returns the pass's events and commits its staged pairs, the later claim on a recomp row winning |
| MatchMsvc.StaticPassFromSteps | reccmp/isledecomp/compare/match_msvc.py:227-265 | every pair and every event of the pass comes from one of its rows |
| MatchMsvc.LineLookup | reccmp/isledecomp/compare/match_msvc.py:357-358 | a missing line or file name raises TypeError; otherwise the result is search_line of the file at line + 1 |
| MatchMsvc.LinePassPairs | reccmp/isledecomp/compare/match_msvc.py:333-360 | each staged pair comes from a LINE row and the one line recorded just below the annotation |
| MatchMsvc.LinePassEvents | reccmp/isledecomp/compare/match_msvc.py:361-367 | each event is NO_MATCH for a LINE row whose search found no single line |
| MatchMsvc.LinePassAscending | reccmp/isledecomp/compare/match_msvc.py:333-339 | the pairs follow the ascending orig rows, so no orig address is staged twice |
| MatchMsvc.PutAllFresh | reccmp/isledecomp/compare/db.py:285-286 | set_recomp_addr with distinct orig addresses stages the pairs as given |
| MatchMsvc.PutAllSnoc | reccmp/isledecomp/compare/db.py:285-286 | a pair with a new orig address goes to the end of `_recomp_addr` |
| MatchMsvc.LinePassStep | reccmp/isledecomp/compare/match_msvc.py:334-367 | one row extends the loop by one LineStep |
| MatchMsvc.LinePassRaised | reccmp/isledecomp/compare/match_msvc.py:357-358 | once a TypeError is raised the later rows change nothing |
| MatchMsvc.StageLines | reccmp/isledecomp/compare/match_msvc.py:333-367 | the loop of match_lines stages PutAll of the pass's pairs and returns its events and whether it raised |
| MatchMsvc.StageLine | reccmp/isledecomp/compare/match_msvc.py:334-367 | one LINE row: stage its recomp address, report it, or raise |
| MatchMsvc.MatchLines | reccmp/isledecomp/compare/match_msvc.py:322-367 | match_lines reports the pass's events; a TypeError commits nothing; otherwise the commit succeeds iff set_recomp_addr of every pair succeeds, and the table becomes that result |
| MatchMsvc.NothingElseStaged | reccmp/isledecomp/compare/db.py:309-319 | with no types or labels staged, the commit leaves both tables as they were |
| MatchMsvc.CommitOnlyAddrs | reccmp/isledecomp/compare/db.py:288-330 | a batch holding only recomp addresses commits exactly those, or leaves the table as it was |
| RankJoin.NthBounds | reccmp/isledecomp/compare/match_msvc.py:101-102 | `row_number()` of a row lies between 1 and the `count` of its partition |
| RankJoin.NthStrict | reccmp/isledecomp/compare/match_msvc.py:101 | within a partition a greater address gets a greater row number |
| RankJoin.NthInjective | reccmp/isledecomp/compare/match_msvc.py:101 | partition key and row number identify a row |
| RankJoin.JoinInjective | reccmp/isledecomp/compare/match_msvc.py:114-119 | joining on equal key and equal row number pairs each address with at most one address on the other side |
| RankJoin.SubstrFromZero | reccmp/isledecomp/compare/match_msvc.py:96 | `substr(label, 0, 255)` as written keeps the first min(len, 254) characters |
| RankJoin.Cut255 | reccmp/isledecomp/compare/match_msvc.py:55-56 | the intended cut keeps the first min(len, 255) characters and leaves short labels whole |
| RankJoin.SubstrDropsChar255 | reccmp/isledecomp/compare/match_msvc.py:96 | a 255-character label loses its last character as written and is kept whole by the intended cut |
| RankJoin.MatchedUntypedIsCandidate | reccmp/isledecomp/compare/match_msvc.py:105-112 | an untyped label on a matched orig address passes the filter as written but not the intended one |
| RankJoin.LabelSide | reccmp/isledecomp/compare/match_msvc.py:95-113 | each candidate row is one labelled address passing the written filter, one row per address |
| RankJoin.LabelSideIntended | reccmp/isledecomp/compare/match_msvc.py:95-113 | each candidate row is one labelled address passing the intended filter, one row per address |
| RankJoin.LabelMatchFrom | reccmp/isledecomp/compare/match_msvc.py:114-119 | a joined row comes from two candidates with the same label and row number, one of them typed, and is unique iff each label occurs once on its side |
| RankJoin.LabelJoinOneToOne | reccmp/isledecomp/compare/match_msvc.py:114-119 | no address occurs in two joined rows |
| RankJoin.TypeLabelMatchesSound | reccmp/isledecomp/compare/match_msvc.py:90-130 | as written, each row pairs two labelled candidates, one of them typed, one-to-one; an address already matched can only come from an untyped label |
| RankJoin.TypeLabelMatchesIntendedSound | reccmp/isledecomp/compare/match_msvc.py:90-130 | as intended, both addresses of each row are unmatched, the label has the 255 cut, and rows are one-to-one |
| RankJoin.UniqueMeansAlone | reccmp/isledecomp/compare/match_msvc.py:102-114 | a unique row's label occurs exactly once among the orig candidates |
| RankJoin.CntAtLeastTwo | reccmp/isledecomp/compare/match_msvc.py:102 | two distinct rows with one label make its count at least 2 |
| RankJoin.StringSide | reccmp/isledecomp/compare/match_msvc.py:305-310 | each candidate is a STRING entity with its raw bytes, one row per address |
| RankJoin.StringPairsSound | reccmp/isledecomp/compare/match_msvc.py:301-319 | paired strings have equal bytes and no address is paired twice |
| RankJoin.OrigRefs | reccmp/isledecomp/compare/db.py:48-52 | the orig_refs view has one row per referencing address |
| RankJoin.RecompRefs | reccmp/isledecomp/compare/db.py:54-58 | the recomp_refs view has one row per referencing address |
| RankJoin.RefPairsShareParent | reccmp/isledecomp/compare/match_msvc.py:370-385 | a pair joins two thunks whose references name the same matched parent on each side |
| RankJoin.RefPairsInjective | reccmp/isledecomp/compare/match_msvc.py:377-385 | no thunk is paired twice |
| SqlLike.PercentSkips | reccmp/isledecomp/compare/match_msvc.py:255 | a leading `%` skips any prefix |
| SqlLike.LiteralPrefix | reccmp/isledecomp/compare/match_msvc.py:255 | text without wildcards matches itself character by character, ignoring ASCII case |
| SqlLike.PatternMeansInOrder | reccmp/isledecomp/compare/match_msvc.py:248-257 | with no wildcard in either part, the pattern holds iff the variable name occurs and the function symbol occurs after it, ignoring ASCII case |
| SqlLike.PatternOccurrences | reccmp/isledecomp/compare/match_msvc.py:248-257 | a matching symbol holds the name and, after it, the function symbol |
| SqlLike.PatternFromOccurrences | reccmp/isledecomp/compare/match_msvc.py:248-257 | the name followed by the function symbol makes the pattern match |
| SqlLike.UnderscoreIsWildcard | reccmp/isledecomp/compare/match_msvc.py:255-256 | an underscore in a variable name acts as a one-character wildcard |
| Lines.ReverseParts | reccmp/isledecomp/compare/lines.py:12-13 | the ASCII-lowercased components in reverse order |
| Lines.Score | reccmp/isledecomp/compare/lines.py:16-24 | the count of equal leading components, every counted one not `..`, stopping at the first mismatch or `..` |
| Lines.ScoreMatch | reccmp/isledecomp/compare/lines.py:16-24 | the loop over the zipped reversed parts returns Score and the path itself, bounded by both lengths |
| Lines.PartsLessTotal | reccmp/isledecomp/compare/lines.py:33 | Python's tuple comparison of paths is total |
| Lines.PartsLessAsymmetric | reccmp/isledecomp/compare/lines.py:33 | and asymmetric |
| Lines.PartsLessTransitive | reccmp/isledecomp/compare/lines.py:33 | and transitive, so the sort is well defined |
| Lines.BestIsMaximal | reccmp/isledecomp/compare/lines.py:32-35 | the first element after sorting descending is outranked by no candidate |
| Lines.RankIrreflexive | reccmp/isledecomp/compare/lines.py:33 | no (score, path) ranks below itself |
| Lines.RankAsymmetric | reccmp/isledecomp/compare/lines.py:33 | the (score, path) order is asymmetric |
| Lines.RankAntisymmetric | reccmp/isledecomp/compare/lines.py:33 | not-below is transitive |
| Lines.PurepathToPath | reccmp/isledecomp/compare/lines.py:27-36 | None exactly for a relative path; otherwise a candidate no other candidate outranks, whatever its score |
| Lines.PurepathToPathUnique | reccmp/isledecomp/compare/lines.py:27-36 | any candidate no other outranks is the answer |
| Lines.Group | reccmp/isledecomp/compare/lines.py:42-44 | no key of `filenames` lists zero files |
| Lines.GroupIsFilter | reccmp/isledecomp/compare/lines.py:42-44 | each key lists exactly the code files with that ASCII-lowercased name, in list order |
| Lines.Resolve | reccmp/isledecomp/compare/lines.py:50-58 | a local file is found iff some code file has the name and the build path is absolute, and it has that name |
| Lines.Record | reccmp/isledecomp/compare/lines.py:60 | `setdefault(path, {})[line] = addr` sets that line, keeps the file's other lines and every other file |
| Lines.SearchLine | reccmp/isledecomp/compare/lines.py:62-103 | an address iff the file is known and exactly one recorded line lies in [start, end], and it is that line's address; the end defaults to the start |
| Lines.RecordThenSearch | reccmp/isledecomp/compare/lines.py:48-85 | a line added is found again by searching for it |
| Lines.RecordKeepsOthers | reccmp/isledecomp/compare/lines.py:48-85 | adding a line in one file leaves searches in every other file unchanged |
| Lines.LinesDb.constructor | reccmp/isledecomp/compare/lines.py:40-46 | `filenames` groups the code files by ASCII-lowercased name and the map starts empty |
| Lines.LinesDb.AddLine | reccmp/isledecomp/compare/lines.py:48-60 | an unresolved path changes nothing; a resolved one records the address on its line, a later address replacing the earlier |
| CompareVerify.PlanOf | reccmp/isledecomp/compare/verify.py:35-53 | skip iff there is no following address; warn without reading iff the room is below the size; otherwise read a whole number of slots within both size and room, less than one slot short of the size |
| CompareVerify.FindNullWord | reccmp/isledecomp/compare/verify.py:56 | the scan over `iter_unpack("<L", ...)` finds a zero word iff the buffer holds one |
| CompareVerify.SizeInt | reccmp/isledecomp/compare/verify.py:41 | an integer size compares as itself; a text or null size raises |
| CompareVerify.Checks | reccmp/isledecomp/compare/verify.py:27-60 | one check outcome per vtable row, in row order |
| CompareVerify.LastVtableSkipped | reccmp/isledecomp/compare/verify.py:35-39 | a vtable with no following typed orig row is never warned about |
| CompareVerify.VtableWarnsIff | reccmp/isledecomp/compare/verify.py:35-60 | with a following address and integer size, the check warns iff the room is below the size or, failing that, a slot read is zero |
| CompareVerify.VtableCheckNamesRow | reccmp/isledecomp/compare/verify.py:42-60 | a warning names the vtable checked |
| CompareVerify.CollectOnePer | reccmp/isledecomp/compare/verify.py:27-60 | collecting checks with ascending addresses warns once per warning check, in order, and for nothing else |
| CompareVerify.OrigsOf | reccmp/isledecomp/compare/verify.py:27 | the orig addresses of the rows, in order |
| CompareVerify.VtableWarningsOnePerVtable | reccmp/isledecomp/compare/verify.py:21-60 | a completed run warns at most once per vtable, in orig order, exactly for the vtables whose own check warns |
| CompareVerify.CheckVtables | reccmp/isledecomp/compare/verify.py:21-60 | the loop over matched VTABLE rows returns VtableWarnings, stopping at the first exception |
| CompareVerify.CheckVtable | reccmp/isledecomp/compare/verify.py:28-60 | one vtable's check, reading the bytes only when the size fits |
| CompareVerify.CollectErrSticks | reccmp/isledecomp/compare/verify.py:27-60 | once one check raises, the run raises that exception |
| CompareVerify.CodeStringReportsExact | reccmp/isledecomp/compare/verify.py:62-85 | every report is INVALID_USER_DATA, at most one per annotation, and an address is reported iff an annotation at it has a STRING or WIDECHAR entity whose name differs from the quoted text |
| CompareVerify.CheckCodeStrings | reccmp/isledecomp/compare/verify.py:62-85 | the loop over the annotations returns CodeStringReports |
| CoreRules.PointerMatchIff | reccmp/isledecomp/compare/core.py:871-882 | two pointers match iff both are null, or the orig target is a matched entity whose recomp address is the recomp pointer |
| CoreRules.CompareRouteRules | reccmp/isledecomp/compare/core.py:841-867 | no size or a skip flag gives no report; a stub gives a stub report of its own type; only FUNCTION and VTABLE entities reach a comparator, the rest none; a missing type or name on the way raises |
| CoreRules.InsertOnlyCommit | reccmp/isledecomp/compare/db.py:288-321 | a batch holding only insert-if-absent stagings commits just the two inserts and succeeds |
| CoreRules.InsertOrigAllKeeps | reccmp/isledecomp/compare/db.py:366-370 | INSERT OR IGNORE on orig addresses keeps every existing row and link and adds exactly the new addresses |
| CoreRules.InsertRecompAllKeeps | reccmp/isledecomp/compare/db.py:382-386 | INSERT OR IGNORE on recomp addresses keeps every existing row and link and adds exactly the new recomp addresses |
| CoreRules.StringRows | reccmp/isledecomp/compare/core.py:466-490 | every staged string row carries a valid type |
| CoreRules.StringRowsExact | reccmp/isledecomp/compare/core.py:466-490 | a string is staged iff it is not at a relocation site and is likely latin1, as STRING with its text as name and size len + 1 |
| CoreRules.StringsPending | reccmp/isledecomp/compare/core.py:466-490 | the strings batch holds only insert stagings |
| CoreRules.StringsNeverOverwrite | reccmp/isledecomp/compare/core.py:461-490 | committing the strings batch succeeds and leaves every existing row and link exactly as it was |
| CoreRules.FindStrings | reccmp/isledecomp/compare/core.py:461-490 | _find_strings leaves the table and outcome of committing StringsPending |
| CoreRules.ImportRows | reccmp/isledecomp/compare/core.py:518-534 | one upsert row per import, at its slot address, named `dll::name`, size 4, type IMPORT |
| CoreRules.AddrKeys | reccmp/isledecomp/compare/core.py:510-512 | the (address, (DLL upper-cased, name)) pairs, in table order |
| CoreRules.KeyAddrs | reccmp/isledecomp/compare/core.py:513-515 | the ((DLL upper-cased, name), address) pairs, in table order |
| CoreRules.ImportPairsOfExact | reccmp/isledecomp/compare/core.py:540-543 | the loop pairs an orig address with r iff its key is in the recomp table at r |
| CoreRules.DictSnoc | reccmp/isledecomp/compare/core.py:510-515 | a dictionary lookup splits at its last entry |
| CoreRules.ImportPairsExact | reccmp/isledecomp/compare/core.py:507-543 | a pair is matched iff the last orig import at o and the last recomp import at r share (DLL upper-cased, name), so each side is an import of that key |
| CoreRules.RecompOnlyImportUnmatched | reccmp/isledecomp/compare/core.py:540-543 | a recomp import whose key no orig import has is never matched |
| CoreRules.ImportsPending | reccmp/isledecomp/compare/core.py:517-543 | the first batch: both import tables upserted, then the matches |
| CoreRules.ImportThunkMarkedSkip | reccmp/isledecomp/compare/core.py:545-566 | every import thunk is staged as a skipped FUNCTION whose ref_orig / ref_recomp is its slot |
| CoreRules.ImportBatch | reccmp/isledecomp/compare/core.py:517-543 | the first `with` block leaves the table and outcome of committing ImportsPending |
| CoreRules.ImportThunkBatch | reccmp/isledecomp/compare/core.py:545-566 | the second `with` block leaves the table and outcome of committing ImportThunksPending |
| CoreRules.MatchImports | reccmp/isledecomp/compare/core.py:507-566 | _match_imports commits the two batches one after the other |
| CoreThunks.ThunkKwargs | reccmp/isledecomp/compare/core.py:582-587 | `type=FUNCTION, size=5, name="Thunk of '<name>'"` |
| CoreThunks.RecompThunkRow | reccmp/isledecomp/compare/core.py:576-587 | no row when the table has no entity at the target; AssertionError when it has no name; else one named row at the thunk |
| CoreThunks.ConcatRowsErrSticks | reccmp/isledecomp/compare/core.py:576-587 | once a thunk raises, the loop has raised |
| CoreThunks.ConcatRowsErrIff | reccmp/isledecomp/compare/core.py:576-587 | the loop fails iff one of its thunks raises |
| CoreThunks.ConcatRowsExact | reccmp/isledecomp/compare/core.py:576-587 | a completed loop stages exactly its thunks' rows |
| CoreThunks.RecompThunkRowsExact | reccmp/isledecomp/compare/core.py:576-587 | the first loop fails iff a known target has no name; otherwise it stages exactly the thunks whose target is known, named after the target |
| CoreThunks.Group | reccmp/isledecomp/compare/core.py:591-593 | no target's list is empty |
| CoreThunks.GroupLists | reccmp/isledecomp/compare/core.py:591-593 | each target's list holds every thunk to it, in list order |
| CoreThunks.Pop | reccmp/isledecomp/compare/core.py:614-616 | `pop(0)` removes the earliest thunk, deleting the key when its list empties |
| CoreThunks.InsertThunk | reccmp/isledecomp/compare/core.py:602-610 | a matched target with no recomp thunk left stages an orig "Thunk of" row and nothing else |
| CoreThunks.Take | reccmp/isledecomp/compare/core.py:614-626 | the earliest recomp thunk is matched to the orig thunk, which is staged skip=True |
| CoreThunks.OrigThunkStep | reccmp/isledecomp/compare/core.py:596-626 | an orig thunk whose target is unknown or unmatched changes nothing; else it inserts or takes |
| CoreThunks.OrigThunkFoldErrSticks | reccmp/isledecomp/compare/core.py:596-626 | once an orig thunk raises, the loop has raised |
| CoreThunks.PopAccounted | reccmp/isledecomp/compare/core.py:614-618 | popping keeps "taken so far + left" equal to the target's original list |
| CoreThunks.TakeSkipped | reccmp/isledecomp/compare/core.py:618-626 | every matched orig thunk stays staged with skip=True |
| CoreThunks.OrigThunkStepKeeps | reccmp/isledecomp/compare/core.py:596-626 | one orig thunk keeps both facts |
| CoreThunks.OrigThunkFoldKeeps | reccmp/isledecomp/compare/core.py:596-626 | over the whole loop, the thunks taken for each target are a prefix of its list, in order, and every matched orig thunk is skipped |
| CoreThunks.ThunksTakenInOrder | reccmp/isledecomp/compare/core.py:568-626 | each recomp thunk is matched at most once, earliest first |
| CoreThunks.NameRecompThunk | reccmp/isledecomp/compare/core.py:577-587 | one recomp thunk of the first loop stages its row or stops at the assertion |
| CoreThunks.NameRecompThunks | reccmp/isledecomp/compare/core.py:576-587 | the first loop stages RecompThunkRows or stops at its error |
| CoreThunks.GroupThunks | reccmp/isledecomp/compare/core.py:591-593 | the second loop builds Group |
| CoreThunks.PairOrigThunk | reccmp/isledecomp/compare/core.py:597-626 | one orig thunk of the third loop performs OrigThunkStep |
| CoreThunks.MatchThunks | reccmp/isledecomp/compare/core.py:568-626 | a failed assertion commits nothing and is returned; otherwise the batch commits ThunksPending |
| CoreThunks.NameAddrs | reccmp/isledecomp/compare/core.py:630 | `{name: addr}` over the exports, in order |
| CoreThunks.ThunkPairs | reccmp/isledecomp/compare/core.py:632-633 | `dict(thunks)` over the thunk list, in order |
| CoreThunks.ExportPairsExact | reccmp/isledecomp/compare/core.py:628-652 | a pair is matched iff a recomp export has a name orig also exports, from the last orig export of that name, each side replaced by its thunk's target |
| CoreThunks.RedirectResolves | reccmp/isledecomp/compare/core.py:646-650 | a thunk address stands for the target of the last thunk at it, any other address for itself |
| CoreThunks.ExportPairMeaning | reccmp/isledecomp/compare/core.py:636-652 | one recomp export's pair, stated through the last entries of the three tables |
| CoreThunks.MatchExports | reccmp/isledecomp/compare/core.py:628-652 | _match_exports commits the matches of ExportPairs |
| CoreArrays.Expand | reccmp/isledecomp/compare/core.py:435-457 | the elements, or each field of each element for an array of structs |
| CoreArrays.FieldsOf | reccmp/isledecomp/compare/core.py:450-457 | `"<element>.<field>"` at element offset plus field offset |
| CoreArrays.EndOf | reccmp/isledecomp/compare/core.py:420 | `orig_addr + size`: an integer size adds, anything else raises TypeError |
| CoreArrays.Bound | reccmp/isledecomp/compare/core.py:420-429 | the array's end, lowered to the next orig address when that comes first |
| CoreArrays.StageElement | reccmp/isledecomp/compare/core.py:395-398 | a new recomp element is named, and matched only when its orig address lies below the bound |
| CoreArrays.AddInArray | reccmp/isledecomp/compare/core.py:387-398 | a recomp address already seen changes nothing; otherwise it is recorded and staged |
| CoreArrays.AddAllStep | reccmp/isledecomp/compare/core.py:435-457 | one more element extends the inner loop by one call |
| CoreArrays.AddAllBook | reccmp/isledecomp/compare/core.py:435-457 | the calls' bookkeeping does not depend on the batch |
| CoreArrays.ArrayFoldErrSticks | reccmp/isledecomp/compare/core.py:403-457 | once an array raises, the loop has raised |
| CoreArrays.ArrayFoldSnoc | reccmp/isledecomp/compare/core.py:403-457 | one more matched DATA entity extends the loop by one step |
| CoreArrays.ExtendsTrans | reccmp/isledecomp/compare/core.py:387-398 | keeping earlier matches is transitive |
| CoreArrays.RecordKeeps | reccmp/isledecomp/compare/core.py:387-398 | one call keeps each recomp address matched at most once and every match below its bound |
| CoreArrays.RecordAllKeeps | reccmp/isledecomp/compare/core.py:435-457 | so do all calls for one array |
| CoreArrays.ArrayStepKeeps | reccmp/isledecomp/compare/core.py:403-457 | one matched DATA entity keeps the invariant |
| CoreArrays.ArrayFoldKeeps | reccmp/isledecomp/compare/core.py:403-457 | the whole loop keeps the invariant |
| CoreArrays.ArrayElementsBounded | reccmp/isledecomp/compare/core.py:376-459 | no recomp element address is matched twice, and every orig element matched lies below its own array's bound |
| CoreArrays.AddMatchInArray | reccmp/isledecomp/compare/core.py:387-398 | `_add_match_in_array` on the batch and `seen_recomp` performs AddInArray |
| CoreArrays.AddArray | reccmp/isledecomp/compare/core.py:435-457 | the inner loop over one array's elements performs AddAll |
| CoreArrays.ArrayEntity | reccmp/isledecomp/compare/core.py:404-457 | one matched DATA entity performs ArrayStep |
| CoreArrays.ArrayLoop | reccmp/isledecomp/compare/core.py:403-457 | the outer loop performs ArrayFold |
| CoreArrays.MatchArrayElements | reccmp/isledecomp/compare/core.py:376-459 | an exception in the loop commits nothing; otherwise the batch commits ArrayPending |
| Replacement.AtOrPastSize | reccmp/isledecomp/compare/asm/replacement.py:65 | `offset >= m.size` compares an integer size and raises TypeError on a missing or text size |
| Replacement.Arrow | reccmp/isledecomp/compare/asm/replacement.py:43 | `"->" + name` succeeds exactly when there is a name |
| Replacement.IndirectImpliesExact | reccmp/isledecomp/compare/asm/replacement.py:32-33 | an indirect lookup gives the same answer whatever `exact` says |
| Replacement.IndirectHitNamesVariable | reccmp/isledecomp/compare/asm/replacement.py:34-43 | an indirect hit on a DATA entity gives its match name; on a pointer entity "->" and the match name |
| Replacement.IndirectDereferences | reccmp/isledecomp/compare/asm/replacement.py:45-51 | otherwise a failed or short read gives no name, and a 4-byte read is dereferenced as a little-endian pointer and looked up exactly |
| Replacement.ExactHitGivesMatchName | reccmp/isledecomp/compare/asm/replacement.py:56-62 | an entity exactly at the address gives its match name, prefixed "->" after an indirection |
| Replacement.OffsetHitOnlyInsideData | reccmp/isledecomp/compare/asm/replacement.py:64-68 | an entity below the address names it only when it is DATA and the offset is below its size, as "name+offset (OFFSET)"; a non-DATA entity gives none |
| Replacement.OrigLookupInside | reccmp/isledecomp/compare/asm/replacement.py:22-70 | over the orig table, a direct non-exact lookup that names something hits an entity at the address or lies inside the DATA entity with the greatest orig address below it |
| AnchorRows.Put | reccmp/isledecomp/storage.py:38 | writing a unique column sets that column and keeps the store |
| AnchorRows.Coalesce | reccmp/isledecomp/storage.py:38 | `col = coalesce(col, ?)` writes the value only into a NULL column, otherwise leaves the row as it is |
| AnchorRows.PutKeepsOthers | reccmp/isledecomp/storage.py:38 | writing one column leaves the other columns as they were |
| AnchorRows.Links | reccmp/isledecomp/storage.py:83-105 | the two link arguments of an anchor's `set`/`patch` name the other two columns; the anchor's own column argument is dropped |
| AnchorRows.Find | reccmp/isledecomp/storage.py:75-81 | the first row holding the value, None iff no row does |
| AnchorRows.FindIsOnly | reccmp/isledecomp/storage.py:10-17 | with unique columns, the row holding a value is the only one |
| AnchorRows.Get | reccmp/isledecomp/storage.py:254-279 | `get_source`/`get_target`/`get_symbol` give a row holding the value, None iff there is none |
| AnchorRows.Closest | reccmp/isledecomp/storage.py:281-297 | the row with the greatest address not above the query, None iff none is |
| AnchorRows.GetClosest | reccmp/isledecomp/storage.py:281-297 | the closest row is a row of the table |
| AnchorRows.ClosestBelow | reccmp/isledecomp/storage.py:281-288 | with sources 100 and 200, a query of 150 finds the row at 100 |
| AnchorRows.Matched | reccmp/isledecomp/storage.py:226-228 | `matched` holds iff source and target are both set |
| AnchorRows.GetKey | reccmp/isledecomp/storage.py:230-231 | `get(key, default)`: the stored value, JSON null included, the default only for a missing key |
| AnchorRows.Test | reccmp/isledecomp/storage.py:233-235 | `test(key)` is false for a missing key and for a stored null |
| AnchorRows.CheckKwargs | reccmp/isledecomp/storage.py:248-252 | succeeds iff every key is an ASCII identifier, else InvalidItemKeyError |
| AnchorRows.CheckKwargsRejects | tests/test_reccmp_db.py:184-194 | a key starting with a digit or holding SQL punctuation is rejected; plain identifiers pass |
| AnchorRows.Select | reccmp/isledecomp/storage.py:308-348 | `search` yields exactly the rows whose keywords all equal the given values and whose `matched` is as requested, in table order |
| AnchorRows.NoneSelectsNothing | reccmp/isledecomp/storage.py:313-317 | a keyword given as None selects nothing, as the TODO says NULL is not checked |
| AnchorRows.ExtendsTransitive | reccmp/isledecomp/storage.py:10-17 | "no row removed, no set column changed" composes over writes |
| AnchorRows.PutKeepsUnique | reccmp/isledecomp/storage.py:37-40 | writing a value no row holds into a NULL column keeps the columns unique |
| AnchorRows.AppendKeepsUnique | reccmp/isledecomp/storage.py:42-45 | appending a row whose values no row holds keeps the columns unique |
| AnchorRows.StoreKeepsUnique | reccmp/isledecomp/storage.py:58-61 | changing only a row's store keeps the columns unique |
| Storage.SqlParams | tests/test_reccmp_db.py:207-211 | Python True and False are bound as 1 and 0; other values unchanged |
| Storage.Connect | reccmp/isledecomp/storage.py:30-45 | fails with IntegrityError iff the link's value is held by another row and would be written (no anchor row, or its column NULL) |
| Storage.AnchorWrite | reccmp/isledecomp/storage.py:83-105 | connect, connect, update, stopping at the first error, which is an IntegrityError |
| Storage.ConnectKeepsUnique | reccmp/isledecomp/storage.py:30-45 | a successful connect keeps the columns unique |
| Storage.AppendNewKeepsUnique | reccmp/isledecomp/storage.py:42-45 | the two-column row the connect inserts keeps the columns unique |
| Storage.UpdateKeepsUnique | reccmp/isledecomp/storage.py:48-66 | the store update keeps the columns unique |
| Storage.AnchorWriteKeepsUnique | reccmp/isledecomp/storage.py:83-105 | every write, failed or not, leaves the columns unique |
| Storage.AnchorWriteWriteOnce | tests/test_reccmp_db.py:84-95 | a unique column, once set, keeps its value through every write, failed or not |
| Storage.UpdateExtends | reccmp/isledecomp/storage.py:48-66 | the store update only appends a row or changes one row's store |
| Storage.ConnectWriteOnce | reccmp/isledecomp/storage.py:30-45 | a successful connect removes no row and changes no set column |
| Storage.ConnectLinks | reccmp/isledecomp/storage.py:30-45 | after a successful connect the anchor has a row whose link column holds the link unless it held a value already, in which case nothing changed |
| Storage.UpdateCreatesAnchor | reccmp/isledecomp/storage.py:48-66 | after `do_update_query` the anchor has a row; no keywords on an existing anchor change nothing |
| Storage.UpdateStore | reccmp/isledecomp/storage.py:56-61 | on an existing anchor the store becomes `json_insert` (patch) or `json_set` (set) of the keywords |
| Storage.UpdateNewStore | reccmp/isledecomp/storage.py:62-66 | on a missing anchor a row is inserted holding the anchor and the keywords |
| Storage.SetThenPatchKeeps | tests/test_reccmp_db.py:55-70 | `set` then `patch` of a key keeps the value `set` wrote |
| Storage.PatchThenSetOverwrites | tests/test_reccmp_db.py:55-70 | `patch` then `set` of a key ends with the value `set` wrote |
| Storage.WrittenKey | tests/test_reccmp_db.py:12-53 | a key written by `set` (or by `patch` on a key not yet stored) reads back as the value given |
| Storage.AnchorParamIgnored | reccmp/isledecomp/storage.py:83-105 | the argument for the anchor's own column has no effect |
| Storage.AnchorParamOverride | tests/test_reccmp_db.py:128-136 | `at_source(0x1234).set(source=0x5555)` on an empty table writes only source 0x1234 |
| Storage.CollisionChangesNothing | reccmp/isledecomp/storage.py:30-45 | linking a value another row holds to an anchor with no row fails with IntegrityError and leaves the table as it was |
| Storage.Collision | tests/test_reccmp_db.py:113-126 | the second write of the collision test fails, creates no target row, and `test` keeps 100 |
| Storage.ReccmpDb.constructor | reccmp/isledecomp/storage.py:241-246 | a new store is empty with no index |
| Storage.ReccmpDb.Exists | reccmp/isledecomp/storage.py:75-81 | `exists()` holds iff some row has the anchor's value |
| Storage.ReccmpDb.GetRow | reccmp/isledecomp/storage.py:254-279 | the row with the value iff one exists |
| Storage.ReccmpDb.GetClosestRow | reccmp/isledecomp/storage.py:281-297 | the row with the greatest address not above the query, None iff none is |
| Storage.ReccmpDb.DoConnect | reccmp/isledecomp/storage.py:30-45 | the table becomes Connect's result, or stays as it was with IntegrityError |
| Storage.ReccmpDb.DoUpdate | reccmp/isledecomp/storage.py:48-66 | the table becomes Update's result |
| Storage.ReccmpDb.Write | reccmp/isledecomp/storage.py:83-183 | `set`/`patch` on any anchor: the table becomes AnchorWrite's, earlier statements kept after an IntegrityError |
| Storage.ReccmpDb.Search | reccmp/isledecomp/storage.py:308-348 | InvalidItemKeyError for a bad key with no index added; otherwise the selected rows, and every non-special key indexed |
| Storage.NewSourceRow | reccmp/isledecomp/storage.py:62-66 | `set` on a new source appends one row holding it and the keywords |
| Storage.BasicSearch | tests/test_reccmp_db.py:138-161 | after three `set` calls, `search(name="hello")` finds two rows, with `group=1` one, and `matched=True` none |
| Storage.SearchThree | tests/test_reccmp_db.py:138-161 | the same search on the three rows the test writes |
| Storage.SelectOfThree | reccmp/isledecomp/storage.py:344-348 | a search over three rows keeps the selected ones in order |
| LegacyDb.FillOnly | reccmp/isledecomp/db.py:47-49 | `coalesce(col, excluded.col)`: a link is written only into a NULL column |
| LegacyDb.Upsert | reccmp/isledecomp/db.py:38-71 | IntegrityError when a link would take a value another row holds; otherwise one row more exactly for a new anchor |
| LegacyDb.InsertKeepsUnique | reccmp/isledecomp/db.py:46 | the row inserted for a new anchor keeps the columns unique |
| LegacyDb.FillKeepsUnique | reccmp/isledecomp/db.py:47-50 | filling NULL columns with free values and replacing the store keeps the columns unique |
| LegacyDb.UpsertKeepsUnique | reccmp/isledecomp/db.py:38-71 | a successful upsert keeps the columns unique |
| LegacyDb.UpsertWriteOnce | reccmp/isledecomp/db.py:38-71 | a unique column, once set, keeps its value |
| LegacyDb.UpsertAnchorRow | reccmp/isledecomp/db.py:38-71 | afterwards the anchor has a row whose store is the keywords (new) or their merge with the stored bag |
| LegacyDb.SetMerges | reccmp/isledecomp/db.py:50 | `set` merges per section 2 of RFC 7396: a non-null new value wins, null deletes, other keys keep their values |
| LegacyDb.PatchKeepsStored | reccmp/isledecomp/db.py:68 | `patch` never changes a stored key and adds exactly the missing keys given non-null |
| LegacyDb.PatchIsInsert | reccmp/isledecomp/db.py:68 | on a bag with no nulls, `patch` equals `json_insert` of the non-null keywords, as the newer store writes it |
| LegacyDb.CollisionFails | reccmp/isledecomp/db.py:45-53 | linking a value another row holds to a new anchor fails and changes nothing |
| LegacyDb.AnchorParamIgnored | reccmp/isledecomp/db.py:38-53 | the argument for the anchor's own column is ignored |
| LegacyDb.ReccmpDb.constructor | reccmp/isledecomp/db.py:223-228 | a new store is empty with no index |
| LegacyDb.ReccmpDb.Exists | reccmp/isledecomp/db.py:30-36 | `exists()` holds iff some row has the anchor's value |
| LegacyDb.ReccmpDb.GetRow | reccmp/isledecomp/db.py:236-264 | the row with the value iff one exists |
| LegacyDb.ReccmpDb.GetClosestRow | reccmp/isledecomp/db.py:266-282 | the row with the greatest address not above the query |
| LegacyDb.ReccmpDb.Write | reccmp/isledecomp/db.py:38-71 | a successful upsert becomes the table; an IntegrityError leaves it as it was |
| LegacyDb.ReccmpDb.Search | reccmp/isledecomp/db.py:293-333 | as in the newer store |
| PdbCommon.AlignTo | reccmp/formats/pdb/common.py:15-16 | `align_to` gives a multiple of `align` in [offset, offset + align) |
| PdbCommon.AlignIdempotent | reccmp/formats/pdb/common.py:15-16 | an aligned offset is left where it is |
| PdbCommon.NumericTag | reccmp/formats/pdb/common.py:4-12 | a u16 is a numeric-leaf tag exactly when it is 0x8000..0x8006 |
| PdbCommon.ReadPackedWith | reccmp/formats/pdb/common.py:19-30 | a u16 below 0x8000 is the value with offset + 2; a tag advances the offset by 2 + its width; a short buffer is a struct error and an unknown tag an assertion error |
| PdbCommon.ReadPacked | reccmp/formats/pdb/common.py:19-30 | with standard widths the offset advances by 2 to 10 bytes and never past the data |
| PdbCommon.PackedRoundTrip | reccmp/formats/pdb/common.py:4-30 | every integer the shortest-form encoder writes (LF_CHAR .. LF_ULONG) reads back, ending just past it |
| PdbCommon.ReadPascalString | reccmp/formats/pdb/common.py:33-36 | a length byte then that many ASCII characters; the offset returned is offset + 1 + length; IndexError past the end |
| PdbCommon.PascalRoundTrip | reccmp/formats/pdb/common.py:33-36 | a length-prefixed ASCII string reads back anywhere in a buffer |
| PdbCommon.ReadSzString | reccmp/formats/pdb/common.py:39-46 | the loop stops at the first NUL: the ASCII text before it and the offset just past it, IndexError when there is no NUL |
| PdbCommon.SzRoundTrip | reccmp/formats/pdb/common.py:39-46 | a NUL-terminated ASCII string is found and decoded back |
| PdbCommonNative.ReadPackedNative | reccmp/isledecomp/formats/pdb/common.py:15-26 | a u16 below 0x8000 is the value with offset + 2; an unknown tag fails the assertion; the offset advances by at most 10 |
| PdbCommonNative.NativeOnLLP64 | reccmp/isledecomp/formats/pdb/common.py:4-26 | where `long` is 4 bytes the native reader equals the standard one |
| PdbCommonNative.NativeAgreesOffLong | reccmp/isledecomp/formats/pdb/common.py:4-26 | every tag except LF_LONG/LF_ULONG reads the same on any host |
| PdbCommonNative.NativeLongOverreads | reccmp/isledecomp/formats/pdb/common.py:4-26 | on an LP64 host "l"/"L" consume 8 bytes, 4 more than the CodeView width |
| PdbCommonNative.NativeLongShortBuffer | reccmp/isledecomp/formats/pdb/common.py:4-26 | with 4 bytes after an LF_LONG tag the LP64 reader fails where the standard one succeeds |
| CodeView.Realign | reccmp/formats/pdb/codeview.py:19-21 | with `align` the offset moves up by less than 4 to a multiple of 4; without it the offset is unchanged |
| CodeView.Step | reccmp/formats/pdb/codeview.py:18-37 | one turn of the loop: a zero declared size stops; a yielded record starts at the realigned offset, its size is the declared size + 2 plus the trailing name for 0x400/0x401/0x403, and the next offset is just past it |
| CodeView.FromBytes | reccmp/formats/pdb/codeview.py:16-37 | the while loop yields exactly the records of the recursive walk, with the exception that ended it |
| CodeView.WalkRecords | reccmp/formats/pdb/codeview.py:16-37 | every record yielded is what the header at its offset declares, and starts at or after the start offset |
| CodeView.WalkChained | reccmp/formats/pdb/codeview.py:17-37 | each record starts where the previous one ends, realigned |
| CodeView.WalkAligned | reccmp/formats/pdb/codeview.py:19-21 | with `align` every record offset is a multiple of 4, and offsets strictly increase |
| ParserSpec.OfModule | reccmp/isledecomp/parser/parser.py:212-215 | a symbol is listed iff it was read and belongs to the requested module; with no module every symbol is listed in reading order |
| ParserSpec.MarkerDict.Lookup | reccmp/isledecomp/parser/parser.py:57-60 | a marker is returned only if it is queued under exactly that key, and nothing is returned iff no queued marker has the key |
| ParserSpec.MarkerDict.Insert | reccmp/isledecomp/parser/parser.py:49-55 | the "would overwrite" flag is set iff the key is already queued; then the queue is unchanged, otherwise the marker is appended; keys stay distinct |
| ParserSpec.LookupIn | reccmp/isledecomp/parser/parser.py:57-60 | the dictionary lookup over a queue: found only under its own key, absent iff no element has the key |
| ParserSpec.InsertAllKeepsFirst | reccmp/isledecomp/parser/parser.py:49-55 | inserting never overwrites: after any sequence of inserts the marker under a key is the one already there or else the first inserted with that key |
| ParserSpec.LookupAppend | reccmp/isledecomp/parser/parser.py:49-60 | appending a marker only makes its own key findable, and only when the key was absent |
| ParserSpec.KeepBelow | reccmp/isledecomp/parser/parser.py:95-101 | the scope stack after a pop is a prefix of the stack before it |
| ParserSpec.KeepBelowExact | reccmp/isledecomp/parser/parser.py:95-101 | on a stack ordered by level, the pop keeps exactly the scopes opened below the new level and drops the rest |
| ParserSpec.CurlyReadValid | reccmp/isledecomp/parser/parser.py:112-130 | reading any token keeps the brace level non-negative and the open scopes ordered and below the current level |
| ParserSpec.CloseBraceDropsInner | reccmp/isledecomp/parser/parser.py:95-101 | `}` lowers the level by one (never below zero) and closes a scope iff it was opened at or above the new level |
| ParserSpec.ScopeNames | reccmp/isledecomp/parser/parser.py:103-110 | the scope names are the stack's names in order, one per open scope |
| ParserSpec.NamespacePrefix | reccmp/isledecomp/parser/parser.py:103-110 | inside `namespace Test` a name is prefixed `Test::`, a name equal to an open scope is not repeated, and with no scope the name stands alone |
| ParserSpec.FunctionsFor | reccmp/isledecomp/parser/parser.py:263-275 | one function symbol per queued marker, in queue order, carrying the marker's type, module and address and the shared signature, start and end lines |
| ParserSpec.VtablesFor | reccmp/isledecomp/parser/parser.py:292-302 | one vtable symbol per queued marker, in queue order, named by the scope prefix and carrying the marker's base class |
| ParserSpec.VarOutsOne | reccmp/isledecomp/parser/parser.py:321-361 | the loop over a single queued variable marker gives what that marker alone gives |
| ParserSpec.VarOutsStep | reccmp/isledecomp/parser/parser.py:321-361 | the variable loop is a left fold: each marker appends its own symbols and alerts after those of the markers before it |
| ParserSpec.MarkerBeforeCurly | reccmp/isledecomp/parser/parser.py:371-374 | a marker between a signature and its `{` is an UNEXPECTED_MARKER error that empties all three queues, returns to searching and emits nothing |
| ParserSpec.IncompatibleRecovers | reccmp/isledecomp/parser/parser.py:388-437 | a known marker the current state does not accept gives INCOMPATIBLE_MARKER, empties every queue and returns to searching without emitting |
| ParserSpec.AcceptedQueues | reccmp/isledecomp/parser/parser.py:388-437 | an accepted marker emits nothing and afterwards its key is queued in the function, variable or vtable queue according to its kind |
| ParserSpec.DuplicateKeepsFirst | reccmp/isledecomp/parser/parser.py:240-243 | a second function marker with a queued key only adds DUPLICATE_MODULE and moves to WANT_SIG; the first marker stays queued |
| ParserSpec.MissedEndClosesFunction | reccmp/isledecomp/parser/parser.py:383-385 | a marker not allowed inside a function first emits the open function with its end on the previous line and warns MISSED_END_OF_FUNCTION |
| ParserSpec.DispatchFromSearch | reccmp/isledecomp/parser/parser.py:388-440 | from the search state a marker never emits a symbol and only appends alerts |
| ParserSpec.FunctionDoneEmits | reccmp/isledecomp/parser/parser.py:257-280 | closing a function appends one symbol per queued marker with its address, module and end line (one less when unexpected), empties the queue and returns to searching |
| ParserSpec.VarOutsShape | reccmp/isledecomp/parser/parser.py:321-361 | each queued variable or string marker gives exactly one symbol or one ORPHANED_STATIC_VARIABLE warning; a warning only for a static; a variable is static iff read inside a function and then has a parent |
| ParserSpec.StaticParent | reccmp/isledecomp/parser/parser.py:336-361 | a static variable takes the address of its module's FUNCTION marker as parent, is named by the scope prefix, and reading resumes inside the function |
| ParserSpec.OrphanedStatic | reccmp/isledecomp/parser/parser.py:340-347 | a static variable whose module has no FUNCTION marker is not emitted and is reported as ORPHANED_STATIC_VARIABLE |
| ParserSpec.CloseBraceEndsFunction | reccmp/isledecomp/parser/parser.py:557-559 | a `}` that brings the level back to the function's opening level closes the function and returns to searching |
| ParserSpec.FinishWarns | reccmp/isledecomp/parser/parser.py:624-628 | finish warns UNEXPECTED_END_OF_FILE iff reading stopped outside the search state, keeps the symbols and ends reading |
| ParserSpec.DoneIgnoresTokens | reccmp/isledecomp/parser/parser.py:498-500 | after finish, any sequence of tokens leaves the reader unchanged and raises nothing |
| ParserSpec.HandleMarkerAppends | reccmp/isledecomp/parser/parser.py:370-440 | handling a marker only appends to the symbols and the alerts |
| ParserSpec.VariableDoneAppends | reccmp/isledecomp/parser/parser.py:316-368 | closing a variable only appends to the symbols and the alerts |
| ParserSpec.CodeTokenAppends | reccmp/isledecomp/parser/parser.py:538-609 | a code token only appends to the symbols and the alerts |
| ParserSpec.ReadTokenAppends | reccmp/isledecomp/parser/parser.py:498-609 | reading a token never removes or rewrites a symbol or an alert already reported |
| ParserSpec.ReadAllAppends | reccmp/isledecomp/parser/parser.py:498-622 | reading a whole token stream only ever extends the symbols and the alerts |
| ParserSpec.HandleMarkerKeepsInv | reccmp/isledecomp/parser/parser.py:370-440 | handling a marker keeps the scope tracker well formed and every queue's keys distinct |
| ParserSpec.CodeTokenKeepsInv | reccmp/isledecomp/parser/parser.py:538-609 | a code token keeps the scope tracker well formed and every queue's keys distinct |
| ParserSpec.ReadTokenKeepsInv | reccmp/isledecomp/parser/parser.py:498-609 | reading any token keeps the scope tracker well formed and every queue's keys distinct |
| ParserSpec.ReadAllKeepsInv | reccmp/isledecomp/parser/parser.py:498-622 | reading any token stream keeps the scope tracker well formed and every queue's keys distinct |
| ParserSpec.NoParenNoName | reccmp/isledecomp/parser/parser.py:442-458 | without a `(` on the token stack no function name is recorded |
| ParserSpec.FunctionNameOfCall | reccmp/isledecomp/parser/parser.py:442-458 | from `void interesting_function()` the function name is `interesting_function` |
| ParserSpec.VariableNameQualified | tests/test_parser.py:629-641 | from `int MxTest::g_count = 0` the variable name is `MxTest::g_count`: the qualifier is kept and the type dropped |
| ParserSpec.VtableNameSkipsBase | tests/test_parser.py:193-203 | from `class MxString : public MxCore` the vtable name is `MxString`, not the base |
| ParserSpec.IncompatibleInput | tests/test_parser.py:53-63 | FUNCTION then GLOBAL: reading ends in the search state with no symbol and exactly one INCOMPATIBLE_MARKER alert on line 2 |
| ParserSpec.SignatureToken | reccmp/isledecomp/parser/parser.py:538-553 | between a function marker and its `{`, a code token other than `;` is stacked and the reader waits for the curly brace |
| ParserSpec.OpenBraceStartsFunction | reccmp/isledecomp/parser/parser.py:544-550 | the `{` after a signature names the function from the stacked tokens, starts it on the brace's line, records the brace level and clears the stack |
| Parser.CurlyManager.constructor | reccmp/isledecomp/parser/parser.py:78-90 | a new scope tracker is at level 0 with no scope and nothing pending |
| Parser.CurlyManager.Reset | reccmp/isledecomp/parser/parser.py:85-90 | reset returns the tracker to level 0 with no scope and nothing pending |
| Parser.CurlyManager.NewScope | reccmp/isledecomp/parser/parser.py:92-93 | pushes the scope with the current level and changes nothing else |
| Parser.CurlyManager.Pop | reccmp/isledecomp/parser/parser.py:95-101 | the in-place pop leaves the tracker in the state the pop function gives |
| Parser.CurlyManager.ReadToken | reccmp/isledecomp/parser/parser.py:112-130 | the in-place token read leaves the tracker in the state the token function gives and keeps it well formed |
| Parser.DecompParser.constructor | reccmp/isledecomp/parser/parser.py:142-175 | a new reader is in the search state with nothing read, nothing queued and a fresh scope tracker |
| Parser.DecompParser.Reset | reccmp/isledecomp/parser/parser.py:177-195 | reset clears results, queues and reading state but keeps the pending token stack |
| Parser.DecompParser.Recover | reccmp/isledecomp/parser/parser.py:217-222 | recovery returns to searching and empties the three queues |
| Parser.DecompParser.SyntaxWarning | reccmp/isledecomp/parser/parser.py:224-231 | a warning appends one alert with the current line and the code and changes nothing else |
| Parser.DecompParser.SyntaxError | reccmp/isledecomp/parser/parser.py:233-235 | an error is a warning followed by recovery |
| Parser.DecompParser.FunctionMarker | reccmp/isledecomp/parser/parser.py:240-243 | queues the marker (warning on a duplicate key) and waits for the signature |
| Parser.DecompParser.NamerefMarker | reccmp/isledecomp/parser/parser.py:245-255 | queues the marker (warning on a duplicate key) and enters the template, synthetic or library state by its kind |
| Parser.DecompParser.FunctionDone | reccmp/isledecomp/parser/parser.py:257-280 | the reader ends in the state the function-done step gives |
| Parser.DecompParser.EmitFunctions | reccmp/isledecomp/parser/parser.py:263-275 | the loop appends exactly one function symbol per queued marker, in queue order |
| Parser.DecompParser.VtableMarker | reccmp/isledecomp/parser/parser.py:282-285 | queues the marker (warning on a duplicate key) and enters the vtable state |
| Parser.DecompParser.VtableDone | reccmp/isledecomp/parser/parser.py:287-305 | the reader ends in the state the vtable-done step gives |
| Parser.DecompParser.EmitVtables | reccmp/isledecomp/parser/parser.py:292-302 | the loop appends exactly one vtable symbol per queued marker, in queue order |
| Parser.DecompParser.VariableMarker | reccmp/isledecomp/parser/parser.py:307-314 | queues the marker (warning on a duplicate key) and enters the in-function or plain global state |
| Parser.DecompParser.VariableDone | reccmp/isledecomp/parser/parser.py:316-368 | the reader ends in the state the variable-done step gives, including the NO_SUITABLE_NAME error when neither a name nor a string is known |
| Parser.DecompParser.EmitVariables | reccmp/isledecomp/parser/parser.py:321-361 | the loop appends the symbols and orphan warnings the variable fold gives for the queued markers |
| Parser.DecompParser.EmitVariable | reccmp/isledecomp/parser/parser.py:322-361 | one iteration, without touching the parser state, yields the string symbol, the variable symbol, or for a static variable without a parent function the orphan warning, exactly as the variable fold defines for that marker |
| Parser.DecompParser.HandleMarker | reccmp/isledecomp/parser/parser.py:370-440 | the reader ends in the state the marker step gives |
| Parser.DecompParser.DispatchMarker | reccmp/isledecomp/parser/parser.py:388-440 | the marker goes to the handler of its kind when the state accepts it, otherwise INCOMPATIBLE_MARKER or BOGUS_MARKER |
| Parser.DecompParser.GetFunctionName | reccmp/isledecomp/parser/parser.py:442-458 | the backward scan returns the function name the scan function defines |
| Parser.DecompParser.GetVariableName | reccmp/isledecomp/parser/parser.py:460-480 | the forward scan returns the variable name the scan function defines |
| Parser.DecompParser.GetVtableName | reccmp/isledecomp/parser/parser.py:482-496 | the backward scan returns the class name the scan function defines |
| Parser.DecompParser.ReadToken | reccmp/isledecomp/parser/parser.py:498-609 | the reader ends in the state the token step gives, raises exactly when it does, and stays well formed |
| Parser.DecompParser.TokenStep | reccmp/isledecomp/parser/parser.py:502-609 | newline, marker comment, nameref comment or code token: the reader ends as the token step gives |
| Parser.DecompParser.MarkerComment | reccmp/isledecomp/parser/parser.py:509-517 | a comment holding a marker warns BAD_DECOMP_MARKER when not written exactly and then handles the marker |
| Parser.DecompParser.NamerefComment | reccmp/isledecomp/parser/parser.py:519-535 | a name comment closes the function looked up by that name, starting on the comment's line; a comment without a name is a BAD_NAMEREF error |
| Parser.DecompParser.CodeToken | reccmp/isledecomp/parser/parser.py:537-609 | the reader ends in the state the code-token step gives and raises exactly when it does |
| Parser.DecompParser.GlobalToken | reccmp/isledecomp/parser/parser.py:561-592 | the reader ends in the state the global-token step gives, including GLOBAL_NOT_VARIABLE for a `return` and the error on an empty stack |
| Parser.DecompParser.ReadTokens | reccmp/isledecomp/parser/parser.py:611-622 | reading a stream leaves the reader as the whole-stream function gives, stops at the first exception and stays well formed |
| Parser.DecompParser.Finish | reccmp/isledecomp/parser/parser.py:624-628 | finish leaves the reader as the finish function gives |
| Codebase.PathLessIrreflexive | reccmp/isledecomp/parser/codebase.py:41 | no path sorts before itself |
| Codebase.PathLessTotal | reccmp/isledecomp/parser/codebase.py:41 | any two different paths are ordered one way or the other |
| Codebase.PathLessTransitive | reccmp/isledecomp/parser/codebase.py:41 | path order is transitive |
| Codebase.InsertPath | reccmp/isledecomp/parser/codebase.py:41 | inserting a path adds exactly that path and leads with it or with the old first path |
| Codebase.SortPaths | reccmp/isledecomp/parser/codebase.py:41 | sorting the paths is a permutation of them |
| Codebase.InsertPathSorted | reccmp/isledecomp/parser/codebase.py:41 | inserting a new path into a sorted list keeps it sorted |
| Codebase.SortPathsSorted | reccmp/isledecomp/parser/codebase.py:41 | distinct paths come out of the sort in strictly increasing order |
| Codebase.SortedPairwise | reccmp/isledecomp/parser/codebase.py:41-43 | in the sorted list every earlier path precedes every later one |
| Codebase.Where | reccmp/isledecomp/parser/codebase.py:84-107 | a filter keeps a symbol iff it is one of the input symbols and passes the test, and never adds any |
| Codebase.WhereSplits | reccmp/isledecomp/parser/codebase.py:54-55 | a test and its complement split the symbols between them with nothing lost or repeated |
| Codebase.LineAndNameFunctions | reccmp/isledecomp/parser/codebase.py:80-95 | line-referenced and name-referenced functions together are exactly the functions |
| Codebase.WhereOfWhere | reccmp/isledecomp/parser/codebase.py:84-107 | filtering by a narrower test after a wider one is the narrower filter alone |
| Codebase.KeepValid | reccmp/isledecomp/parser/codebase.py:53-55 | every file keeps its place and keeps exactly its symbols whose address passes the check, in order |
| Codebase.InvalidSplit | reccmp/isledecomp/parser/codebase.py:45-57 | every pruned symbol fails the check, every kept one passes, and kept plus pruned is the input |
| Codebase.InSplit | reccmp/isledecomp/parser/codebase.py:54 | a symbol is in a concatenation iff it is in one of the parts |
| Codebase.OffsetsAppend | reccmp/isledecomp/parser/codebase.py:63-74 | the addresses of a concatenation are the addresses of its parts |
| Codebase.DistinctAppend | reccmp/isledecomp/parser/codebase.py:63-74 | two lists with distinct addresses, the second avoiding the first's, concatenate to one with distinct addresses |
| Codebase.DedupFileUsed | reccmp/isledecomp/parser/codebase.py:67-74 | after one file the used addresses are the earlier ones plus the addresses kept from the file |
| Codebase.DedupFileFresh | reccmp/isledecomp/parser/codebase.py:67-74 | the symbols kept from a file have distinct addresses, none of them used before |
| Codebase.DedupFileDups | reccmp/isledecomp/parser/codebase.py:69-71 | each duplicate reported from a file repeats an address already used |
| Codebase.DedupFileParts | reccmp/isledecomp/parser/codebase.py:67-76 | kept and reported symbols of a file together are the file's symbols |
| Codebase.DedupFilesLast | reccmp/isledecomp/parser/codebase.py:66-76 | the files are deduplicated in order, the last one against the addresses the others used |
| Codebase.DedupFilesKeys | reccmp/isledecomp/parser/codebase.py:66-76 | deduplicating keeps every file, in its order |
| Codebase.DedupFilesFresh | reccmp/isledecomp/parser/codebase.py:59-78 | across all files each address is kept at most once, never one used before, and the used set grows by exactly the kept addresses |
| Codebase.DedupFilesDups | reccmp/isledecomp/parser/codebase.py:59-78 | every duplicate returned repeats an address kept earlier |
| Codebase.DedupFilesParts | reccmp/isledecomp/parser/codebase.py:59-78 | kept and returned symbols together are all the symbols |
| Codebase.DecompCodebase.constructor | reccmp/isledecomp/parser/codebase.py:21-24 | a new code base for the module holds no file and no symbol |
| Codebase.DecompCodebase.SetFile | reccmp/isledecomp/parser/codebase.py:26-33 | the text is stored under the path; unless reading raises, the path's symbols become this module's symbols read by a fresh reader, in reading order |
| Codebase.DecompCodebase.PruneInvalidAddrs | reccmp/isledecomp/parser/codebase.py:45-57 | each file keeps its symbols with a valid address and the method returns the others, file after file |
| Codebase.DecompCodebase.PruneReusedAddrs | reccmp/isledecomp/parser/codebase.py:59-78 | each address keeps its first symbol in file order and the later ones are returned |
| Codebase.DecompCodebase.DedupOne | reccmp/isledecomp/parser/codebase.py:67-76 | the loop over one file keeps, reports and records addresses as the one-file deduplication defines |
| Codebase.IterSymbolsOrder | reccmp/isledecomp/parser/codebase.py:39-43 | iteration visits every file once, in strictly increasing path order, each file's symbols in full |
| Preprocessor.Evaluate | reccmp/isledecomp/parser/preprocessor.py:7-9 | a condition is true iff its first token is `1`; a condition with no token raises |
| Preprocessor.EvaluateBasic | tests/test_preprocessor.py:6-9 | `0` evaluates false and `1` true |
| Preprocessor.DriveAppend | reccmp/isledecomp/parser/preprocessor.py:43 | running two inputs in turn is running the first and then the second from where it stopped |
| Preprocessor.DriveOne | reccmp/isledecomp/parser/preprocessor.py:43 | the generator handles one token, then continues unless it raised |
| Preprocessor.Preprocess | reccmp/isledecomp/parser/preprocessor.py:32-120 | the generator yields exactly the tokens the run function yields, and raises exactly when it does |
| Preprocessor.RunAdvance | reccmp/isledecomp/parser/preprocessor.py:43-120 | a token that raises ends the run with what was yielded so far; otherwise the run continues from the new state |
| Preprocessor.OrdinaryToken | reccmp/isledecomp/parser/preprocessor.py:44-80 | an ordinary token is yielded, collected, ends a directive's line or is dropped, as the step defines |
| Preprocessor.Directive | reccmp/isledecomp/parser/preprocessor.py:84-120 | a directive token yields nothing and changes the state as the step defines, raising at an `#endif` with no open block |
| Preprocessor.StepKeepsInv | reccmp/isledecomp/parser/preprocessor.py:114-116 | a step that does not raise keeps the depth non-negative and the acted-on depths positive |
| Preprocessor.RunKeepsInv | reccmp/isledecomp/parser/preprocessor.py:43-120 | a run that does not raise keeps the depth non-negative and the acted-on depths positive |
| Preprocessor.RunYieldsInput | reccmp/isledecomp/parser/preprocessor.py:44-47 | every yielded token is an ordinary token of the input, and never more tokens than were read |
| Preprocessor.PassingRunYieldsAll | reccmp/isledecomp/parser/preprocessor.py:45-47 | outside any failed condition ordinary tokens pass through unchanged |
| Preprocessor.DelayedRunYieldsNothing | reccmp/isledecomp/parser/preprocessor.py:43-80 | inside a failed or already-taken condition ordinary tokens are dropped and nothing changes |
| Preprocessor.DriveThree | reccmp/isledecomp/parser/preprocessor.py:43 | three tokens run in turn give the three steps' outputs in order |
| Preprocessor.OpeningRun | reccmp/isledecomp/parser/preprocessor.py:63-74 | an `#ifdef`/`#ifndef` line opens a deeper acted-on block that passes iff the name's definedness matches the directive |
| Preprocessor.IfndefKeepsBody | tests/test_preprocessor.py:22-31 | `#ifndef XYZ` with XYZ undefined yields its body |
| Preprocessor.IfdefDropsBody | tests/test_preprocessor.py:33-41 | `#ifdef XYZ` with XYZ undefined yields nothing |
| Preprocessor.EndifNeverClosesFailedBlock | reccmp/isledecomp/parser/preprocessor.py:114-120 | as written, a token after the `#endif` of a failed `#ifdef` is still dropped |
| Preprocessor.DefineStopsOutput | reccmp/isledecomp/parser/preprocessor.py:84-88 | as written, nothing after a `#define` line is ever yielded |
| Preprocessor.StepFixedKeepsInv | reccmp/isledecomp/parser/preprocessor.py:91-120 | as intended, each step keeps the acted-on depths strictly increasing and at most the current depth |
| Preprocessor.RunFixedKeepsInv | reccmp/isledecomp/parser/preprocessor.py:43-120 | as intended, a run that does not raise keeps the stack of depths well formed |
| Preprocessor.StackRepeatsDepth | reccmp/isledecomp/parser/preprocessor.py:114-120 | as written, a closed `#ifndef` leaves its depth on the stack, so the next block repeats it |
| Preprocessor.RunFixedPlain | reccmp/isledecomp/parser/preprocessor.py:45-47 | as intended, plain tokens are yielded in a passing mode and dropped in a failed one, with no change of state |
| Preprocessor.BlockIsBalanced | reccmp/isledecomp/parser/preprocessor.py:90-120 | as intended, a complete `#ifdef`/`#ifndef` block yields its body exactly when its condition holds and then passes tokens again at the depth and stack it started from |
| Preprocessor.OpeningRunFixed | reccmp/isledecomp/parser/preprocessor.py:63-74 | as intended, an opening line behaves as written |
| Preprocessor.EndifFixedCloses | reccmp/isledecomp/parser/preprocessor.py:114-120 | as intended, `#endif` closes the block on top of the stack and resumes passing |
| Preprocessor.DefineResumesOutput | reccmp/isledecomp/parser/preprocessor.py:59-60 | as intended, `#define NAME` records the name and output resumes after its line |
| CvdumpSymbols.RegisterStep | reccmp/isledecomp/cvdump/symbols.py:101-117 | a stack or register leaf changes only the current function's stack symbols: the number of records, the current function, the block depth and every record's header stay as they were |
| CvdumpSymbols.ProcStep | reccmp/isledecomp/cvdump/symbols.py:119-145 | a function leaf that does not match the pattern changes nothing; a hex field that does not parse raises and leaves the state as it was; otherwise the block depth is kept |
| CvdumpSymbols.DataStep | reccmp/isledecomp/cvdump/symbols.py:147-163 | a static variable leaf never adds or reorders records, never changes the current function or the depth, and never changes a record's header |
| CvdumpSymbols.LeafStep | reccmp/isledecomp/cvdump/symbols.py:170-202 | every leaf keeps the reader's invariant: the current function, when there is one, is the last record |
| CvdumpSymbols.ReadLeaves | reccmp/isledecomp/cvdump/symbols.py:170-202 | reading the leaves in order keeps the invariant whenever no exception stops it |
| CvdumpSymbols.CvdumpSymbolsParser.constructor | reccmp/isledecomp/cvdump/symbols.py:93-99 | a new reader has no records, no current function and depth 0 |
| CvdumpSymbols.CvdumpSymbolsParser.ReadRegister | reccmp/isledecomp/cvdump/symbols.py:101-117 | the object's new state is the register step of its old state |
| CvdumpSymbols.CvdumpSymbolsParser.ReadProc | reccmp/isledecomp/cvdump/symbols.py:119-145 | the object's new state is the function step of its old state, or the old state with the error when a hex field raises |
| CvdumpSymbols.CvdumpSymbolsParser.ReadData | reccmp/isledecomp/cvdump/symbols.py:147-163 | the object's new state is the static variable step of its old state, or the error when a hex field raises |
| CvdumpSymbols.CvdumpSymbolsParser.ReadAll | reccmp/isledecomp/cvdump/symbols.py:165-202 | the loop over the leaves ends in the state the leaf-by-leaf fold gives, or with the exception that stopped it |
| CvdumpSymbols.ReadLeavesAppend | reccmp/isledecomp/cvdump/symbols.py:170-202 | reading two runs of leaves is reading the first and then the second from where it left off |
| CvdumpSymbols.ReadLeavesKeepsRecords | reccmp/isledecomp/cvdump/symbols.py:125-145 | records are only appended: whatever follows, every record read keeps its place and its header |
| CvdumpSymbols.ProcStarts | reccmp/isledecomp/cvdump/symbols.py:119-145 | an S_GPROC32 leaf that parses appends a record with its hex section, offset and size, its type and name, no symbols, and the frame pointer flag exactly when the leaf says "Flags: Frame Ptr Present"; that record becomes the current function |
| CvdumpSymbols.RegisterInsideFunction | reccmp/isledecomp/cvdump/symbols.py:106-117 | inside a function an S_BPREL32 leaf appends one symbol with its location in lower case to the current function and changes no other record |
| CvdumpSymbols.RegisterOutsideFunction | reccmp/isledecomp/cvdump/symbols.py:102-104 | outside a function stack and register leaves change nothing |
| CvdumpSymbols.DataInsideFunction | reccmp/isledecomp/cvdump/symbols.py:152-163 | inside a function an S_LDATA32 leaf appends one static variable with its hex section and offset to the current function and changes no other record |
| CvdumpSymbols.DataOutsideFunction | reccmp/isledecomp/cvdump/symbols.py:159-163 | outside a function an S_LDATA32 leaf that raises nothing changes nothing |
| CvdumpSymbols.BlockEndKeepsFunction | reccmp/isledecomp/cvdump/symbols.py:191-198 | S_BLOCK32 followed by S_END leaves the state exactly as it was: the S_END closes the block, not the function |
| CvdumpSymbols.EndAtTopClosesFunction | reccmp/isledecomp/cvdump/symbols.py:194-198 | an S_END at depth 0 closes the current function and changes nothing else |
| CvdumpSymbols.RegistersKeepCurrent | reccmp/isledecomp/cvdump/symbols.py:101-117 | stack symbols never raise, and keep the current function, the depth and the number of records |
| CvdumpSymbols.NestedBlockKeepsFunction | reccmp/isledecomp/cvdump/symbols.py:191-198 | a block holding stack symbols inside a function leaves the same function open at the same depth |
| CvdumpFieldlist.Before | reccmp/isledecomp/cvdump/fieldlist.py:83 | the first part of `partition` is the longest prefix without the separator, followed in the string by the separator when shorter |
| CvdumpFieldlist.Last4 | reccmp/isledecomp/cvdump/fieldlist.py:80 | the slice `[-4:]` is the last four characters, or the whole key when shorter |
| CvdumpFieldlist.NormalizeTypeId | reccmp/isledecomp/cvdump/fieldlist.py:77-83 | the empty key, and only it, raises IndexError; a key starting with "0" becomes "0x" and its last four characters in lower case; any other key loses everything from the first "(" on |
| CvdumpFieldlist.NormalizeShape | reccmp/isledecomp/cvdump/fieldlist.py:77-83 | a "0…" key normalises to "0x" and at most four characters with no upper-case letter; any other key to its longest prefix without "(" |
| CvdumpFieldlist.BeforeIdempotent | reccmp/isledecomp/cvdump/fieldlist.py:83 | cutting at the first "(" twice is cutting once |
| CvdumpFieldlist.NormalizeIdempotent | reccmp/isledecomp/cvdump/fieldlist.py:77-83 | normalising twice is normalising once, for keys that neither start with "(" nor are "0…" keys shorter than four characters |
| CvdumpFieldlist.NormalizeShortKeyGrows | reccmp/isledecomp/cvdump/fieldlist.py:79-80 | short "0" keys are not stable under normalising: "0" gives "0x0", which gives "0x0x0" |
| CvdumpFieldlist.NormalizeParenKey | reccmp/isledecomp/cvdump/fieldlist.py:79-83 | a key starting with "(" normalises to the empty string, and normalising that raises IndexError |
| CvdumpFieldlist.ParseFieldlist | reccmp/isledecomp/cvdump/fieldlist.py:86-141 | the parse raises exactly when some base or member type is empty |
| CvdumpFieldlist.ParseFieldlistRecords | reccmp/isledecomp/cvdump/fieldlist.py:86-141 | with no empty type every capture becomes one record in order: base and member types normalised, a virtual base direct iff its marker is not "I" with its type kept verbatim |
| CvdumpFieldlist.ParseFieldlistEmptyType | reccmp/isledecomp/cvdump/fieldlist.py:87-104 | one empty base or member type makes the whole parse raise IndexError |
| PdbFieldList.ReadAttr | reccmp/isledecomp/formats/pdb/fieldlist.py:36-44 | the attribute reads two bytes or fails with struct.error; access and method property are bits 0-1 and 2-4 of the word, and the offset moves by 2 |
| PdbFieldList.LowFiveBits | reccmp/isledecomp/formats/pdb/fieldlist.py:40-41 | the two attribute fields together are exactly the five low bits of the word |
| PdbFieldList.ReadIndex | reccmp/isledecomp/formats/pdb/fieldlist.py:69-72 | a type index reads 4 bytes in the 32-bit layout and 2 in the 16-bit one, or fails with struct.error when the buffer is short |
| PdbFieldList.IndexAndAttr | reccmp/isledecomp/formats/pdb/fieldlist.py:67-74 | index and attribute take 6 bytes in the 32-bit layout and 4 in the 16-bit one, or fail with struct.error when the buffer is short |
| PdbFieldList.KindOf | reccmp/isledecomp/formats/pdb/fieldlist.py:322-343 | only the listed 16- and 32-bit leaf types select a reader, and each of them has a low byte of at most 0x0C |
| PdbFieldList.ReadBClass | reccmp/isledecomp/formats/pdb/fieldlist.py:61-78 | a base class keeps its leaf type and ends at least 6 bytes on |
| PdbFieldList.VBHead | reccmp/isledecomp/formats/pdb/fieldlist.py:98-105 | the fixed part of a virtual base takes 10 bytes in the 32-bit layout and 6 in the 16-bit one, or fails with struct.error |
| PdbFieldList.ReadVBClass | reccmp/isledecomp/formats/pdb/fieldlist.py:92-111 | a virtual base class keeps its leaf type and ends at least 12 bytes on |
| PdbFieldList.ReadEnumerate | reccmp/isledecomp/formats/pdb/fieldlist.py:123-131 | an enumerator keeps its leaf type and ends at least 7 bytes on |
| PdbFieldList.ReadMember | reccmp/isledecomp/formats/pdb/fieldlist.py:144-162 | a data member keeps its leaf type and ends at least 9 bytes on |
| PdbFieldList.ReadStaticMember | reccmp/isledecomp/formats/pdb/fieldlist.py:174-191 | a static member keeps its leaf type and ends at least 7 bytes on |
| PdbFieldList.ReadMethod | reccmp/isledecomp/formats/pdb/fieldlist.py:203-213 | an overloaded method list keeps its leaf type and ends at least 7 bytes on |
| PdbFieldList.ReadNestType | reccmp/isledecomp/formats/pdb/fieldlist.py:224-234 | a nested type keeps its leaf type and ends at least 5 bytes on |
| PdbFieldList.ReadVFuncTab | reccmp/isledecomp/formats/pdb/fieldlist.py:244-253 | a vtable pointer keeps its leaf type and ends at least 4 bytes on |
| PdbFieldList.ReadOneMethod | reccmp/isledecomp/formats/pdb/fieldlist.py:266-289 | a method keeps its leaf type, and its vbaseoff is 0 unless it introduces a virtual |
| PdbFieldList.ReadKind | reccmp/isledecomp/formats/pdb/fieldlist.py:322-340 | the reader the leaf type selects yields a leaf of that kind with the leaf type read, at least 4 bytes on |
| PdbFieldList.StepAt | reccmp/isledecomp/formats/pdb/fieldlist.py:307-344 | one turn skips a padding byte by its low two bits, stops at an unknown leaf type, or reads a leaf whose type selects its kind |
| PdbFieldList.LeavesFrom | reccmp/isledecomp/formats/pdb/fieldlist.py:307-344 | every leaf read has a type that selects its own kind |
| PdbFieldList.FieldList | reccmp/isledecomp/formats/pdb/fieldlist.py:299-359 | a buffer too short for the size word and record type fails with struct.error; every leaf read has a type that selects its kind |
| PdbFieldList.NextLeaf | reccmp/isledecomp/formats/pdb/fieldlist.py:308-344 | the loop body computes the step the list reader defines |
| PdbFieldList.ReadFieldList | reccmp/isledecomp/formats/pdb/fieldlist.py:299-359 | the while loop yields the leaves, or the exception, of the recursive reader |
| PdbFieldList.AttrAt | reccmp/isledecomp/formats/pdb/fieldlist.py:36-44 | an encoded attribute reads back as itself |
| PdbFieldList.PackedAt | reccmp/isledecomp/formats/pdb/common.py:15-27 | a packed integer the host can read reads back as itself, and the offset moves past its encoding |
| PdbFieldList.PascalAt | reccmp/isledecomp/formats/pdb/common.py:29-33 | a length-prefixed ASCII name reads back as itself |
| PdbFieldList.BClassRead | reccmp/isledecomp/formats/pdb/fieldlist.py:61-78 | a base class written field by field reads back as itself, ending just past its bytes |
| PdbFieldList.VBClassRead | reccmp/isledecomp/formats/pdb/fieldlist.py:92-111 | a virtual base class written field by field reads back as itself |
| PdbFieldList.EnumerateRead | reccmp/isledecomp/formats/pdb/fieldlist.py:123-131 | an enumerator written field by field reads back as itself |
| PdbFieldList.MemberRead | reccmp/isledecomp/formats/pdb/fieldlist.py:144-162 | a data member written field by field reads back as itself |
| PdbFieldList.StaticMemberRead | reccmp/isledecomp/formats/pdb/fieldlist.py:174-191 | a static member written field by field reads back as itself |
| PdbFieldList.MethodRead | reccmp/isledecomp/formats/pdb/fieldlist.py:203-213 | an overloaded method list written field by field reads back as itself |
| PdbFieldList.NestTypeRead | reccmp/isledecomp/formats/pdb/fieldlist.py:224-234 | a nested type written field by field reads back as itself, the 32-bit layout skipping two pad bytes |
| PdbFieldList.VFuncTabRead | reccmp/isledecomp/formats/pdb/fieldlist.py:244-253 | a vtable pointer written field by field reads back as itself |
| PdbFieldList.OneMethodRead | reccmp/isledecomp/formats/pdb/fieldlist.py:266-289 | a method written field by field reads back as itself, with a vbaseoff only when it introduces a virtual |
| PdbFieldList.LeafReads | reccmp/isledecomp/formats/pdb/fieldlist.py:322-340 | any leaf written field by field is read back by the reader its leaf type selects |
| PdbFieldList.LeafAt | reccmp/isledecomp/formats/pdb/fieldlist.py:322-340 | any encodable leaf is read back by the reader its type selects, which stops just past its bytes |
| PdbFieldList.PadLen | reccmp/isledecomp/formats/pdb/fieldlist.py:308-311 | the padding brings a leaf to a 4-byte boundary with fewer than 4 bytes |
| PdbFieldList.PadSkips | reccmp/isledecomp/formats/pdb/fieldlist.py:308-311 | the reader skips a whole padding run at its first byte |
| PdbFieldList.LeafStep | reccmp/isledecomp/formats/pdb/fieldlist.py:307-344 | a written leaf is never mistaken for padding or an unknown type: the loop reads it whole |
| PdbFieldList.LeavesAt | reccmp/isledecomp/formats/pdb/fieldlist.py:307-344 | written leaves, each padded to 4 bytes, are read back in order up to the end of the run |
| PdbFieldList.EncodeFieldList | reccmp/isledecomp/formats/pdb/fieldlist.py:300-302 | a field list record is the size word, the record type and the padded leaves |
| PdbFieldList.FieldListAt | reccmp/isledecomp/formats/pdb/fieldlist.py:299-359 | a written field list reads back as its leaves, on either host |
| PdbFieldList.StraddlingLeaf | reccmp/isledecomp/formats/pdb/fieldlist.py:301-307 | the size bounds where a leaf may start, not where it ends: a leaf starting inside the record is read in full past its end |
| PdbFieldList.EnumerateLiteralSample | tests/test_pdb_fieldlist.py:10-17 | an LF_ENUMERATE_ST with a literal value 0 reads back with attribute public and its name |
| PdbFieldList.EnumerateCharSample | tests/test_pdb_fieldlist.py:20-28 | an LF_CHAR value 0xFF reads as -1 |
| PdbFieldList.EnumerateUShortSample | tests/test_pdb_fieldlist.py:31-39 | an LF_USHORT value reads as 32768 |
| PdbFieldList.EnumerateLongSample | tests/test_pdb_fieldlist.py:42-50 | an LF_LONG value reads as -2147483648 where "l" has four bytes |
| PdbFieldList.EnumerateULongSample | tests/test_pdb_fieldlist.py:53-61 | an LF_ULONG value reads as 65536 where "L" has four bytes |
| PdbFieldList.NestTypeSample16 | tests/test_pdb_fieldlist.py:64-70 | a 16-bit nested type reads index 0x75 and its name |
| PdbFieldList.NestTypeSample32 | tests/test_pdb_fieldlist.py:73-79 | a 32-bit nested type skips two pad bytes and reads index 0x75 |
| PdbFieldList.OneMethodSample | tests/test_pdb_fieldlist.py:82-88 | a public method that introduces no virtual reads no vbaseoff |
| PdbFieldList.OneMethodIntroSample | tests/test_pdb_fieldlist.py:91-99 | a protected introducing virtual reads vbaseoff 8 after its index |
| PdbFieldList.OneMethodPureIntroSample | tests/test_pdb_fieldlist.py:102-110 | a public pure introducing virtual reads vbaseoff 4 |
| PdbFieldList.MemberSample32 | tests/test_pdb_fieldlist.py:113-121 | a 32-bit data member reads index 0x412 at field offset 4 |
| Tpi.ReadTpiHeader | reccmp/isledecomp/formats/pdb/tpi.py:19-36 | a buffer too short for the version fails with struct.error; an unknown version raises ValueError; the 4.1 header has 16-bit ids and header size 16; a known version with a short body fails with struct.error |
| Tpi.TpiHeaderRoundTrip | reccmp/isledecomp/formats/pdb/tpi.py:19-36 | a written 4.1 or 5.0 header reads back as itself, whatever follows it |
| Tpi.Format | reccmp/isledecomp/formats/pdb/tpi.py:134-382 | each record layout is a valid little-endian struct format, in its 32-bit and 16-bit variants |
| Tpi.FieldsOf | reccmp/isledecomp/formats/pdb/tpi.py:134-382 | a record's stored fields are as many as its layout lists |
| Tpi.FieldsBuild | reccmp/isledecomp/formats/pdb/tpi.py:134-382 | building a record from a layout's values and taking its fields back gives the same values, packed value and name |
| Tpi.BuildFields | reccmp/isledecomp/formats/pdb/tpi.py:134-382 | building a record from its own fields gives the record back |
| Tpi.ReadShaped | reccmp/isledecomp/formats/pdb/tpi.py:134-382 | a buffer too short for the header or the fixed part fails with struct.error; a record read has the layout asked for and its fields are the values unpacked after the 4-byte header, in the layout the leaf type's bit 0x1000 selects |
| Tpi.ShapedRoundTrip | reccmp/isledecomp/formats/pdb/tpi.py:134-382 | a written modifier, pointer, array, class, union, procedure or member function reads back as itself under a header of either width |
| Tpi.ArraySample | tests/test_pdb_types.py:8-14 | the 16-bit LF_ARRAY reads element type 0x78BE, index type 0x11 and count 144 |
| Tpi.DecodeRecord | reccmp/isledecomp/formats/pdb/tpi.py:419-443 | exactly the types the match does not list are filed as unhandled; a listed type with no room for its header fails with struct.error; a decoded record has the layout its type selects |
| Tpi.DecodeClassifies | reccmp/isledecomp/formats/pdb/tpi.py:420-443 | the decoder leaves exactly the unlisted types unhandled |
| Tpi.RecordsFaithful | reccmp/isledecomp/formats/pdb/tpi.py:414-451 | a loop that returns decoded every record without an exception, printed the decoded ones in order with their ids, and filed under each unhandled type the ids of all its records |
| Tpi.RecordsFail | reccmp/isledecomp/formats/pdb/tpi.py:445-448 | a loop that raises re-raises the exception of the first record that fails to decode |
| Tpi.RecordsFrom | reccmp/isledecomp/formats/pdb/tpi.py:412-451 | the loop over the records from index j on returns exactly when every one of those records decodes |
| Tpi.Types | reccmp/isledecomp/formats/pdb/tpi.py:406-451 | a header that does not read is the exception raised; when parse_types returns, the header read and the walk of the leaves ended without an error |
| Tpi.TypesFaithful | reccmp/isledecomp/formats/pdb/tpi.py:406-451 | when parse_types returns, the walk of the records ended cleanly, every record decoded, the decoded ones are listed in id order from id_start, and each unhandled type maps to the ids of all its records |
| Tpi.TypesFail | reccmp/isledecomp/formats/pdb/tpi.py:406-451 | an exception from parse_types is the header's, or that of the first record that fails to decode, or, when every record decodes, the walk's |
| Tpi.DecodeAll | reccmp/isledecomp/formats/pdb/tpi.py:414-451 | the for loop yields exactly what the recursive walk over the records gives |
| Tpi.ParseTypes | reccmp/isledecomp/formats/pdb/tpi.py:406-451 | the method reads the header, cuts the leaves, walks and decodes them as the functional definition does |
| TpiLists.AsWrittenRule | reccmp/isledecomp/formats/pdb/tpi.py:99 | the test `attr & 24 in (24, 16)` gives a vbaseoff to every method property from 4 up, the pure virtual (5) included, and so to every introducing virtual |
| TpiLists.ReadEntry | reccmp/isledecomp/formats/pdb/tpi.py:88-103 | one entry is 8 bytes in the 32-bit layout and 4 in the 16-bit one, plus 4 for a vbaseoff when the rule gives one, otherwise vbaseoff 0; a short buffer fails with struct.error |
| TpiLists.EntriesFrom | reccmp/isledecomp/formats/pdb/tpi.py:88-103 | entries are read until the offset reaches the end of the buffer; only struct.error can stop the loop; an entry without a vbaseoff has vbaseoff 0 |
| TpiLists.EntriesStep | reccmp/isledecomp/formats/pdb/tpi.py:88-103 | one turn of the loop appends the entry read and goes on from just past it |
| TpiLists.MethodEntries | reccmp/isledecomp/formats/pdb/tpi.py:85-103 | the while loop, with the vbaseoff test as written, yields exactly the entries of the recursive reader |
| TpiLists.EncodeEntry | reccmp/isledecomp/formats/pdb/tpi.py:88-103 | a written entry takes 8 or 4 bytes, plus 4 for the vbaseoff of an introducing virtual |
| TpiLists.EntryRoundTrip | reccmp/isledecomp/formats/pdb/tpi.py:88-103 | a written entry reads back as itself and the reader stops just past it |
| TpiLists.EntriesRoundTrip | reccmp/isledecomp/formats/pdb/tpi.py:88-103 | written entries that fill the buffer read back in order |
| TpiLists.ReadMethodListAsWritten | reccmp/isledecomp/formats/pdb/tpi.py:113-121 | as written, a buffer too short for the record header fails with struct.error |
| TpiLists.LaterListIsEmpty | reccmp/isledecomp/formats/pdb/tpi.py:118-120 | as written, the entries are cut at the record size counted from the start of the whole buffer, so a list that starts past that point reads as empty |
| TpiLists.ReadMethodList | reccmp/isledecomp/formats/pdb/tpi.py:113-121 | corrected, a short header fails with struct.error, only struct.error can be raised, and only an introducing virtual carries a vbaseoff |
| TpiLists.MethodListRoundTrip | reccmp/isledecomp/formats/pdb/tpi.py:113-121 | corrected, a written method list reads back wherever it lies in the buffer, whatever follows it |
| TpiLists.LaterMethodList | reccmp/isledecomp/formats/pdb/tpi.py:113-121 | a method list lying further into the buffer than its own size reads as empty as written and reads back when corrected |
| TpiLists.PureVirtualEntry | reccmp/isledecomp/formats/pdb/tpi.py:96-101 | a pure virtual entry ending a list fails with struct.error as written, because a vbaseoff is read past the end, and reads back with vbaseoff 0 when corrected |
| TpiLists.ReadArgs | reccmp/isledecomp/formats/pdb/tpi.py:395-403 | a buffer too short for the header and the count fails with struct.error, and that is the only exception |
| TpiLists.ArgsRead | reccmp/isledecomp/formats/pdb/tpi.py:399-403 | the indices read are no more than the count, all of them exactly when the buffer holds them, and they are the values packed after the count |
| TpiLists.ReadArgListAsWritten | reccmp/isledecomp/formats/pdb/tpi.py:395-403 | as written, a buffer shorter than the header and a 16-bit count fails with struct.error |
| TpiLists.ReadArgList | reccmp/isledecomp/formats/pdb/tpi.py:395-403 | corrected, a buffer shorter than the header and the count fails with struct.error |
| TpiLists.ArgsRoundTrip | reccmp/isledecomp/formats/pdb/tpi.py:399-403 | a written count and its indices read back |
| TpiLists.ArgListRoundTrip | reccmp/isledecomp/formats/pdb/tpi.py:395-403 | corrected, a written argument list reads back in the layout its leaf type names, whatever follows it |
| TpiLists.WideArgList | reccmp/isledecomp/formats/pdb/tpi.py:399-402 | as written, a 32-bit list of one index reads the high half of its count in its place; corrected, it reads the index |
| TpiPointer.PtrTypeOf | reccmp/isledecomp/formats/pdb/tpi.py:39-56 | a pointer type that the enum accepts is at most CV_PTR_UNUSEDPTR (0x0D) |
| TpiPointer.PtrModeOf | reccmp/isledecomp/formats/pdb/tpi.py:58-66 | a pointer mode that the enum accepts is at most CV_PTR_MODE_RESERVED (5) |
| TpiPointer.FlagsAsWritten | reccmp/isledecomp/formats/pdb/tpi.py:216-218 | `(attr & 0x700) >> 8`: FLAT32, VOLATILE and CONST are reported exactly when bits 8, 9 and 10 are set, and UNALIGNED never |
| TpiPointer.Flags | reccmp/isledecomp/formats/pdb/tpi.py:216-218 | with the mask 0xF00: each of FLAT32, VOLATILE, CONST and UNALIGNED is reported exactly when its bit, 8 to 11, is set |
| TpiPointer.FlagBits | reccmp/isledecomp/formats/pdb/tpi.py:69-75 | a set of pointer flags packs into four bits |
| TpiPointer.FlagSetBits | reccmp/isledecomp/formats/pdb/tpi.py:69-75 | unpacking the packed flags gives the same set back |
| TpiPointer.PointerAttrRoundTrip | reccmp/isledecomp/formats/pdb/tpi.py:209-219 | with the mask 0xF00, the attribute word splits back into the pointer type, mode and flags it was packed from |
| TpiPointer.UnalignedNeverReported | reccmp/isledecomp/formats/pdb/tpi.py:217-219 | as written, the mask 0x700 gives the intended flags less UNALIGNED, so UNALIGNED is never reported, though bit 11 of the word holds it |
| TpiPointer.UnalignedLost | reccmp/isledecomp/formats/pdb/tpi.py:217-219 | an UNALIGNED pointer with no other flag reads, as written, as one with no flags at all |
| Dbi.NewHeaderShape | reccmp/isledecomp/formats/pdb/dbi.py:33 | the format "<I4xH2xH2xH2x4I" has 12 fields and takes 36 bytes |
| Dbi.OldHeaderShape | reccmp/isledecomp/formats/pdb/dbi.py:47 | the format "<3H2x4I" has 8 fields and takes 24 bytes |
| Dbi.ReadDbiHeader | reccmp/isledecomp/formats/pdb/dbi.py:20-63 | a buffer too short for the signature, or for the header it selects, fails with struct.error and nothing else; the module records start at 64 after the new header and 24 after the old one, whose version is 0 |
| Dbi.NewHeaderRoundTrip | reccmp/isledecomp/formats/pdb/dbi.py:20-63 | a written new header, signature -1 first, reads back as itself with the module records at offset 64 |
| Dbi.OldHeaderRoundTrip | reccmp/isledecomp/formats/pdb/dbi.py:20-63 | a written old header whose first two stream ids are not both 0xFFFF reads back as itself with version 0 and the module records at offset 24 |
| Dbi.NotSignature | reccmp/isledecomp/formats/pdb/dbi.py:21-22 | two 16-bit ids spell the signature -1 only when both are 0xFFFF |
| Dbi.Unsigned | reccmp/isledecomp/formats/pdb/dbi.py:88 | a signed field written by struct reads back as the same signed value |
| Dbi.NewScShape | reccmp/isledecomp/formats/pdb/dbi.py:88 | the format "<H2x2iIH2x2I" takes 28 bytes |
| Dbi.OldScShape | reccmp/isledecomp/formats/pdb/dbi.py:91-93 | the format "<4IH2x" takes 20 bytes |
| Dbi.ReadSectionContribution | reccmp/isledecomp/formats/pdb/dbi.py:76-111 | a contribution reads exactly when 28 (new) or 20 (old) bytes remain, fails with struct.error otherwise, ends that far on, and in the old layout has no CRCs |
| Dbi.SectionContributionRoundTrip | reccmp/isledecomp/formats/pdb/dbi.py:76-111 | a written contribution reads back in its layout, whatever follows it |
| Dbi.ModuleOf | reccmp/isledecomp/formats/pdb/dbi.py:131-157 | a module record keeps its contribution and names, and in the old layout has no C13 line size |
| Dbi.ReadNames | reccmp/isledecomp/formats/pdb/dbi.py:143-144 | the module and object names each end at a NUL, and the reader stops just past the second |
| Dbi.ReadModuleInfo | reccmp/isledecomp/formats/pdb/dbi.py:124-157 | a module record ends after the realignment to 4, 4 unused bytes, the contribution, 32 (new) or 24 (old) skipped bytes and the two NUL-ended names |
| Dbi.ModuleInfoAdvances | reccmp/isledecomp/formats/pdb/dbi.py:127-144 | a module record read always ends at least 50 bytes past where it started, so the loop of parse_modules ends |
| Dbi.ReaderOf | reccmp/isledecomp/formats/pdb/dbi.py:170-172 | the record reader always advances |
| Dbi.ParseModules | reccmp/isledecomp/formats/pdb/dbi.py:160-178 | the while loop prints exactly the lines of the recursive definition, and ends with the exception of the record that failed, if any |
| Dbi.ModulesExtend | reccmp/isledecomp/formats/pdb/dbi.py:170-178 | the loop only appends to what it printed before |
| Dbi.ModulesNumbered | reccmp/isledecomp/formats/pdb/dbi.py:169-178 | parse_modules numbers the lines it prints 1, 2, 3, ... in the order it reads the records |
| Msf.MagicLengths | reccmp/formats/pdb/msf.py:19-22 | the small magic is 44 bytes, the big one 30, and they differ at byte 16 |
| Msf.MagicsExclusive | reccmp/formats/pdb/msf.py:38-43 | no buffer starts with both magics, so the choice of header is never ambiguous |
| Msf.CeilDivIsCeiling | reccmp/formats/pdb/msf.py:50 | the block-map count is the smallest number of pages that hold the stream directory |
| Msf.ReadU16s | reccmp/formats/pdb/msf.py:52-53 | n u16 values read exactly when 2n bytes remain, each the little-endian value at its place; otherwise struct.error |
| Msf.ReadU32s | reccmp/formats/pdb/msf.py:52-53 | n u32 values read exactly when 4n bytes remain, each the little-endian value at its place; otherwise struct.error |
| Msf.HeaderFromBytes | reccmp/formats/pdb/msf.py:35-62 | ValueError exactly when neither magic starts the buffer; a big header has its page size at 32, directory size at 44 and u32 block maps from 52, a small one its page size at 44, directory size at 52 and u16 block maps from 60, and the block-map count is the ceiling of directory size over page size |
| Msf.SmallHeader | reccmp/formats/pdb/msf.py:45-53 | the "44sI2HI4x" header and its u16 block-map pages, read at their offsets |
| Msf.BigHeader | reccmp/formats/pdb/msf.py:45-53 | the "30s4I4x" header and its u32 block-map pages, read at their offsets |
| Msf.Sizes | reccmp/formats/pdb/msf.py:78-81 | the stream sizes are the i32 every 8 bytes from offset 4, and the loop fails exactly when the last of them lies past the end |
| Msf.StreamsShape | reccmp/formats/pdb/msf.py:83-90 | the directory yields one stream per non-negative size, in order, each with the ceiling of size over page size pages |
| Msf.NegativeSizeShifts | reccmp/formats/pdb/msf.py:84-85 | a negative size leaves no stream behind, so the next stream takes its place in the tuple |
| Msf.GetStreamDirectory | reccmp/formats/pdb/msf.py:70-90 | the two loops yield exactly the streams of the directory definition, or the error the first failing read raises |
| Msf.ReadStreams | reccmp/formats/pdb/msf.py:83-90 | the page-list loop, advancing by 2 bytes per page, yields the streams of the directory definition |
| Msf.DirectoryShape | reccmp/formats/pdb/msf.py:83-90 | every stream of a decoded directory has a non-negative size and the ceiling of size over page size pages |
| Msf.PageInside | reccmp/formats/pdb/msf.py:106-109 | a page inside the file is page_size bytes starting at page_size times its number |
| Msf.PagePastEnd | reccmp/formats/pdb/msf.py:106-109 | a page wholly past the end of the file is empty |
| Msf.CombineBytes | reccmp/formats/pdb/msf.py:115-117 | joined pages are bytes |
| Msf.CombineLength | reccmp/formats/pdb/msf.py:115-117 | with every page inside the file, the joined pages are page_size bytes per page |
| Msf.CombineAt | reccmp/formats/pdb/msf.py:115-117 | byte r of the j-th joined page is byte r of page pages[j] of the file |
| Msf.Open | reccmp/formats/pdb/msf.py:98-104 | a container holds the header read from its data and the directory decoded from its joined block-map pages |
| Msf.GetStream | reccmp/formats/pdb/msf.py:111-113 | a stream id outside the directory, counted from either end, raises IndexError and any other yields a stream |
| Msf.OpenStreamShape | reccmp/formats/pdb/msf.py:98-104 | every stream of an opened container has a non-negative size and the ceiling of size over page size pages |
| Msf.StreamReadsBack | reccmp/formats/pdb/msf.py:111-117 | a stream whose pages lie in the file reads back exactly size bytes, and byte r of its j-th page is byte r of file page pages[j] |
| Ne.PascalString | reccmp/isledecomp/formats/ne.py:25-27 | an empty buffer raises IndexError; otherwise the string is at most as long as the length byte and shorter than the buffer |
| Ne.PascalAgrees | reccmp/isledecomp/formats/ne.py:25-27 | the NE pascal_string agrees with the PDB reader's read_pascal_string at offset 0 |
| Ne.ReadHeader | reccmp/isledecomp/formats/ne.py:289-315 | a buffer too short for the magic raises struct.error, a magic other than "NE" raises ValueError, and a header read is 64 bytes on with CS:IP and SS:SP as (segment, offset), entry table, segment table, segment count and alignment at their offsets and a known target OS |
| Ne.SegmentTable | reccmp/isledecomp/formats/ne.py:69-80 | a table that fits gives exactly count entries, each the four u16 words at 8 bytes per entry from the table offset |
| Ne.RelocTypeOf | reccmp/isledecomp/formats/ne.py:83-88 | 0, 2, 3 and 5 are the only relocation types; any other raises |
| Ne.RelocFlagOf | reccmp/isledecomp/formats/ne.py:90-95 | the flag is the low two bits: 0 an internal reference, 1 an import by ordinal |
| Ne.Offsets | reccmp/isledecomp/formats/ne.py:133-137 | the sites of a segment of n bytes are 0 .. n - 1 |
| Ne.Chain | reccmp/isledecomp/formats/ne.py:133-137 | following a chain of patch sites either ends or fails with struct.error, or loops forever on a cycle |
| Ne.IterRelocChain | reccmp/isledecomp/formats/ne.py:133-137 | the while loop of iter_reloc_chain yields exactly the chain of the recursive definition, detecting the cycle on which the source never returns |
| Ne.ChainLinks | reccmp/isledecomp/formats/ne.py:133-137 | a chain that ends is empty exactly when it starts at 0xFFFF; otherwise it starts at the start, each readable site links to the next, the last links to 0xFFFF, and no site repeats |
| Ne.SelfLoopHangs | reccmp/isledecomp/formats/ne.py:135-137 | a site that links to itself makes the chain loop forever |
| Ne.ReadReloc | reccmp/isledecomp/formats/ne.py:165-185 | a record has its flag from bits 0-1, value0 and value1 from its u16 words, no sites when the additive flag 4 is set, and otherwise the sites of the chain from its start |
| Ne.RelocsFrom | reccmp/isledecomp/formats/ne.py:128-130 | a segment's records read one per count, the first failure failing the lot |
| Ne.Relocations | reccmp/isledecomp/formats/ne.py:122-130 | the relocation table holds exactly the u16 count of records |
| Ne.SegmentOf | reccmp/isledecomp/formats/ne.py:147-194 | segment i sits at (0x1000 + 8i) << 16, starts at sector times sector size, has 64 KiB for a size or minimum allocation of 0, and no relocations without flag 0x100 |
| Ne.SegmentsFrom | reccmp/isledecomp/formats/ne.py:147-194 | each segment read is the segment of its table entry, at its index |
| Ne.SegmentsCons | reccmp/isledecomp/formats/ne.py:147-194 | one more segment in front keeps every later segment at its index |
| Ne.SegmentAddresses | reccmp/isledecomp/formats/ne.py:140-194 | segments get selectors 8 apart in table order, and both sizes are between 1 byte and 64 KiB |
| Ne.Slot | reccmp/isledecomp/formats/ne.py:217-250 | a slot reads exactly when its indicator is 0 or its 6 (movable) or 3 (fixed) bytes remain, always moves on, and an entry found gets the next ordinal |
| Ne.BundleSlots | reccmp/isledecomp/formats/ne.py:217-250 | the slots of a bundle never move backwards and fail only with struct.error |
| Ne.SlotOrdinals | reccmp/isledecomp/formats/ne.py:217-218 | the entries of a bundle of k slots have strictly increasing ordinals in (ordinal, ordinal + k] |
| Ne.Bundles | reccmp/isledecomp/formats/ne.py:211-252 | the bundles run until a count of 0 and fail only with struct.error |
| Ne.EntryOrdinals | reccmp/isledecomp/formats/ne.py:207-252 | the entry table's ordinals are 1-based and strictly increasing, so each names one entry |
| Ne.ConcatOrdered | reccmp/isledecomp/formats/ne.py:211-218 | the next bundle's ordinals continue above the previous bundle's |
| Ne.GlueAppend | reccmp/isledecomp/formats/ne.py:209-252 | appending the entries of two bundles in turn is appending both at once |
| Ne.EntryTable | reccmp/isledecomp/formats/ne.py:207-252 | the bundle loop gives exactly the entries of the recursive definition |
| Ne.ReadBundle | reccmp/isledecomp/formats/ne.py:217-250 | the slot loop of a bundle gives exactly its slots |
| Ne.SlotsStep | reccmp/isledecomp/formats/ne.py:217-250 | one slot read moves its entry, if any, from the slots still to read to those read |
| Ne.RelativeFrom | reccmp/isledecomp/formats/ne.py:483-488 | the first segment from i whose range holds the address, and the offset into it; InvalidVirtualAddressError exactly when no such segment exists |
| Ne.GetRelativeAddr | reccmp/isledecomp/formats/ne.py:483-488 | the 1-based index of the first segment whose range holds the address, and the offset into it; an error exactly when no segment holds it |
| Ne.GetAbsAddrAsWritten | reccmp/isledecomp/formats/ne.py:490-495 | as written, any section from -n+1 to n is accepted, by Python's negative indexing |
| Ne.SectionZeroIsLast | reccmp/isledecomp/formats/ne.py:490-495 | as written, section 0 translates through the last segment instead of failing |
| Ne.GetAbsAddr | reccmp/isledecomp/formats/ne.py:473-478 | sections are 1-based: exactly 1..n succeed, giving the segment's address plus the offset, and agree there with the code as written |
| Ne.AbsOfRelative | reccmp/isledecomp/formats/ne.py:483-495 | translating an address to segment:offset and back gives the address |
| Ne.RelativeDefined | reccmp/isledecomp/formats/ne.py:483-488 | every address inside some segment's range translates, to that segment or an earlier one |
| Ne.Seek | reccmp/isledecomp/formats/ne.py:497-509 | an offset past the virtual size raises; otherwise the bytes are the file's from the segment's physical offset plus the offset, at most what is left of the physical size, with the rest of the virtual size |
| NeReloc.Insert | reccmp/isledecomp/formats/ne.py:389 | inserting a relocation keeps every other one and adds one |
| NeReloc.SortByKey | reccmp/isledecomp/formats/ne.py:389 | the sort keeps the number of relocations |
| NeReloc.InsertPermutes | reccmp/isledecomp/formats/ne.py:389 | an insertion adds exactly the relocation inserted |
| NeReloc.InsertSorted | reccmp/isledecomp/formats/ne.py:389 | inserting into a list sorted by (value0, value1) keeps it sorted |
| NeReloc.SortByKeySorted | reccmp/isledecomp/formats/ne.py:389 | sorted() returns the relocations it was given, ordered by (value0, value1) |
| NeReloc.InsertStable | reccmp/isledecomp/formats/ne.py:389 | an insertion goes after every relocation with an equal key |
| NeReloc.SortByKeyStable | reccmp/isledecomp/formats/ne.py:389 | the sort is stable: relocations with equal keys keep their order |
| NeReloc.FlagFilter | reccmp/isledecomp/formats/ne.py:387 | the filter keeps exactly the relocations with the flag asked for |
| NeReloc.ImportOrdinals | reccmp/isledecomp/formats/ne.py:382-388 | all_imports holds exactly the IMPORTORDINAL relocations of the segments |
| NeReloc.ImportAddrs | reccmp/isledecomp/formats/ne.py:391-398 | import_map has a key for every import and no other key |
| NeReloc.ImportAddrIsLast | reccmp/isledecomp/formats/ne.py:391-398 | the address of a key is 0x2000 << 16 plus 4 times the position of the last import carrying it |
| NeReloc.ImportAddrsDistinct | reccmp/isledecomp/formats/ne.py:391-398 | distinct keys get distinct addresses inside the import segment |
| NeReloc.KeyOrder | reccmp/isledecomp/formats/ne.py:391-400 | the imports follow the dict's insertion order: each key once, exactly the map's keys |
| NeReloc.KeyOrderSorted | reccmp/isledecomp/formats/ne.py:389-400 | over the sorted imports the keys of _imports come out sorted |
| NeReloc.Imports | reccmp/isledecomp/formats/ne.py:391-400 | a module reference past the imported names raises IndexError; otherwise one import per key |
| NeReloc.ImportOfRelocation | reccmp/isledecomp/formats/ne.py:391-400 | every imported ordinal has an import named after its module, with its ordinal and its map address |
| NeReloc.ImportsDistinct | reccmp/isledecomp/formats/ne.py:391-400 | distinct imports have distinct addresses |
| NeReloc.ModuleNamesFrom | reccmp/isledecomp/formats/ne.py:370-377 | one module name per u16 entry of the module reference table, failing only with IndexError or a decode error |
| NeReloc.ImportedNames | reccmp/isledecomp/formats/ne.py:370-377 | a module table of odd length raises struct.error; otherwise a blank first, then one name per u16 entry |
| NeReloc.EntryMap | reccmp/isledecomp/formats/ne.py:356 | the entry map has a key for every entry's ordinal and no other key |
| NeReloc.EntryMapLookup | reccmp/isledecomp/formats/ne.py:356 | with strictly increasing ordinals each ordinal maps to its own entry |
| NeReloc.Pack16 | reccmp/isledecomp/formats/ne.py:439-442 | struct.pack("<H") succeeds exactly for 0..0xFFFF and reads back as the value |
| NeReloc.Pack32 | reccmp/isledecomp/formats/ne.py:413 | struct.pack("<I") succeeds exactly for 32-bit values and reads back as the value |
| NeReloc.Spread | reccmp/isledecomp/formats/ne.py:408-420 | the same bytes go to every site of a relocation, in chain order |
| NeReloc.ImportPatches | reccmp/isledecomp/formats/ne.py:408-420 | every import patch is 4 bytes, and a lookup never misses when every imported key is in the map |
| NeReloc.ImportPatchesFound | reccmp/isledecomp/formats/ne.py:382-420 | the import map built from all segments holds every key a segment's patches look up |
| NeReloc.Resolve | reccmp/isledecomp/formats/ne.py:428-436 | a movable reference (value0 255) takes its segment and offset from the entry table, and raises ValueError exactly when its ordinal is missing; any other reference is taken as it stands |
| NeReloc.Replacement | reccmp/isledecomp/formats/ne.py:438-447 | OFFSET writes the offset as 2 bytes, SEGMENT the selector as 2 bytes, FAR_ADDR the flat address of get_abs_addr as written as 4 bytes, and LOBYTE whatever the previous relocation computed, or fails on an unbound local |
| NeReloc.InternalPatches | reccmp/isledecomp/formats/ne.py:422-449 | internal patches are 2 or 4 bytes, leave a replacement behind when there was a relocation, and fail when a movable reference is missing from the entry table |
| NeReloc.LoByteReuses | reccmp/isledecomp/formats/ne.py:438-449 | a LOBYTE relocation writes the previous replacement, even one from an earlier segment, and with none before it fails on an unbound local |
| NeReloc.SegmentPatches | reccmp/isledecomp/formats/ne.py:402-449 | a segment's patch list is 2- or 4-byte patches |
| NeReloc.MissingEntryFails | reccmp/isledecomp/formats/ne.py:430-433 | a movable reference missing from the entry table fails the segment |
| NeReloc.Overwrite | reccmp/isledecomp/formats/ne.py:456 | the slice assignment writes the patch's bytes at its place and leaves the rest |
| NeReloc.OverwriteNothing | reccmp/isledecomp/formats/ne.py:456 | an empty patch changes nothing |
| NeReloc.ApplyPatch | reccmp/isledecomp/formats/ne.py:456 | a patch raises ValueError exactly when it does not fit in the segment's bytes, since it would change the memoryview's shape |
| NeReloc.PatchLands | reccmp/isledecomp/formats/ne.py:403-456 | an applied patch lies inside the segment, lands at the segment's start plus its offset, and leaves every other byte |
| NeReloc.ApplyFrom | reccmp/isledecomp/formats/ne.py:452-456 | the patches apply in order and the first that does not fit raises ValueError |
| NeReloc.ApplyFromOutside | reccmp/isledecomp/formats/ne.py:452-456 | a segment's patches leave every byte outside the segment as it was |
| NeReloc.ApplyStep | reccmp/isledecomp/formats/ne.py:452-456 | one patch applied moves the loop on by one |
| NeReloc.RelocateFrom | reccmp/isledecomp/formats/ne.py:402-456 | the segment loop keeps the view's length |
| NeReloc.PlanFrom | reccmp/isledecomp/formats/ne.py:352-400 | the plan's entry table is the map of the entries read |
| NeReloc.PostInitSpec | reccmp/isledecomp/formats/ne.py:351-459 | patching keeps the image's length |
| NeReloc.RelocateUnfold | reccmp/isledecomp/formats/ne.py:402-456 | a successful relocation is the segment's patches applied, then the later segments |
| NeReloc.RelocateOutside | reccmp/isledecomp/formats/ne.py:402-459 | patching never touches bytes outside every segment's physical extent |
| NeReloc.NeImage.constructor | reccmp/isledecomp/formats/ne.py:329-349 | the image's view is a writable copy of the file's bytes |
| NeReloc.NeImage.Write | reccmp/isledecomp/formats/ne.py:456 | the loop writes exactly the patch's bytes into the view |
| NeReloc.NeImage.ApplyPatches | reccmp/isledecomp/formats/ne.py:452-456 | the loop leaves the view as the patches applied in order, or stops with the error of the first that does not fit |
| NeReloc.NeImage.ApplyOne | reccmp/isledecomp/formats/ne.py:456 | one patch is written into the view exactly when it fits |
| NeReloc.NeImage.Relocate | reccmp/isledecomp/formats/ne.py:402-456 | the segment loop leaves the view as the patching of every segment in turn, or stops with the first error |
| NeReloc.NeImage.PostInit | reccmp/isledecomp/formats/ne.py:351-459 | __post_init__ leaves the view patched and the imports set as the specification gives them, or fails with its error |
| Elf.Widths | reccmp/isledecomp/formats/elf.py:269-271 | each layout has 13 fields after e_ident |
| Elf.OffsetBound | reccmp/isledecomp/formats/elf.py:281-284 | a field of the packed format ends no later than any later field starts |
| Elf.Unpack | reccmp/isledecomp/formats/elf.py:282-284 | unpack_from reads one value per field of the format |
| Elf.Build | reccmp/isledecomp/formats/elf.py:285 | the header holds e_ident and exactly the fields read, in declaration order |
| Elf.FromMemory | reccmp/isledecomp/formats/elf.py:263-287 | no "\x7fELF" raises the not-found error, a class byte other than 1 or 2 raises ValueError; a header read has a known machine, e_ident as its first 16 bytes, its fields unpacked in the byte order of the data byte and the width of the class byte, and the format's size, which fits in the buffer |
| Elf.FormatMatchesAbi | reccmp/isledecomp/formats/elf.py:269-271 | the two formats put every field where the System V ABI's Elf32_Ehdr and Elf64_Ehdr put it, and are 52 and 64 bytes long |
| Elf.FromMemoryFields | reccmp/isledecomp/formats/elf.py:263-287 | every field of a parsed header is the value at its ABI offset, in the header's byte order and width |
| Elf.UnpackAtAbi | reccmp/isledecomp/formats/elf.py:281-284 | the packed fields read back at their ABI offsets |
| Elf.Bitness | reccmp/isledecomp/formats/elf.py:243-248 | 32 for class byte 1, 64 for 2, ValueError otherwise |
| Elf.ParsedBitness | reccmp/isledecomp/formats/elf.py:243-287 | a parsed header has a bitness, 32 exactly when its size is 52 and 64 exactly when it is 64 |
| Elf.EndianessAlwaysRaises | reccmp/isledecomp/formats/elf.py:251-256 | as written, an int element of e_ident is compared with one-byte bytes objects, so every header, a valid one included, raises ValueError |
| Elf.Endianess | reccmp/isledecomp/formats/elf.py:251-256 | as intended, data byte 1 is little-endian, 2 big-endian, and anything else raises |
| Elf.ParsedEndianess | reccmp/isledecomp/formats/elf.py:251-287 | the intended endianess of a parsed header is the byte order its fields were read in |
| Elf.Abi | reccmp/isledecomp/formats/elf.py:259-260 | ElfABI succeeds exactly for a listed EI_OSABI value, and is that value |
| Resource.PascalAt | reccmp/isledecomp/analysis/resource.py:54-57 | a name is its length byte's count of ASCII bytes; struct.error exactly when the length byte or the bytes run past the table |
| Resource.TypeOf | reccmp/isledecomp/analysis/resource.py:68-71 | a type id with the high bit set is a predefined type, ValueError when WINUSER.H does not list it; otherwise it is the offset of the type's name |
| Resource.IdOf | reccmp/isledecomp/analysis/resource.py:78-81 | a resource id with the high bit set is the number in its low 15 bits; otherwise it is the offset of its name |
| Resource.Entry | reccmp/isledecomp/analysis/resource.py:74-92 | an entry needs its 8 bytes, else struct.error; it has the offset and size shifted by the alignment, the flags masked to 0x70, and the id read from its word |
| Resource.EntryScaled | reccmp/isledecomp/analysis/resource.py:84-91 | an entry read has offset and size multiples of 2**shift and flags within 0x70 |
| Resource.Entries | reccmp/isledecomp/analysis/resource.py:73-94 | the entry loop fails only with a decode error, a struct.error ending the walk silently |
| Resource.EntriesNext | reccmp/isledecomp/analysis/resource.py:73-94 | an entry loop that goes on has read all its entries, 12 bytes each |
| Resource.Table | reccmp/isledecomp/analysis/resource.py:59-98 | a zero type id ends the walk with nothing; only ValueError and UnicodeDecodeError come out, a struct.error ending the walk silently |
| Resource.EntriesStep | reccmp/isledecomp/analysis/resource.py:73-94 | one entry read is yielded before the rest |
| Resource.EntriesFail | reccmp/isledecomp/analysis/resource.py:73-98 | an entry that does not read ends the walk, silently on a struct.error |
| Resource.EntriesDone | reccmp/isledecomp/analysis/resource.py:73 | a type of no entries yields nothing and goes on where it is |
| Resource.ReadEntries | reccmp/isledecomp/analysis/resource.py:73-94 | the inner for loop yields exactly the entries of the recursive definition |
| Resource.NeResourceTable | reccmp/isledecomp/analysis/resource.py:43-98 | the generator's nested loops yield exactly the records of the table walk over the slice between ne_rsrctab and ne_restab |
| Resource.EntriesScaled | reccmp/isledecomp/analysis/resource.py:73-94 | every record of one type is scaled and masked |
| Resource.TableScaled | reccmp/isledecomp/analysis/resource.py:59-98 | every record of the table has its offset and size a multiple of 2**shift and its flags within 0x70 |
| Resource.EntriesBound | reccmp/isledecomp/analysis/resource.py:73-94 | each entry read consumes 12 bytes |
| Resource.TableBound | reccmp/isledecomp/analysis/resource.py:59-98 | the table yields at most one record per 12 bytes, so the walk ends |
| Resource.UnknownTypeRaises | reccmp/isledecomp/analysis/resource.py:68-69 | a predefined type id WINUSER.H does not list raises ValueError with nothing yielded |
| Codegen.CallConvention | reccmp/tools/codegen.py:51-62 | "__fastcall" exactly when "Fast" occurs, "__stdcall" when "STD" does and "Fast" does not, "__cdecl" when only "C" occurs, and "" when none does |
| Codegen.NameOfCaches | reccmp/tools/codegen.py:201-221 | a lookup only adds to the name cache, and afterwards the key is cached with the name returned, except for the "???" fallback, which is not cached |
| Codegen.NameOfStable | reccmp/tools/codegen.py:201-203 | a name once looked up is answered from the cache, and asking again changes nothing |
| Codegen.PointerScalarName | reccmp/tools/codegen.py:205-209 | an uncached pointer scalar is named after its target with " *" appended, and fails exactly when its target's lookup fails |
| Codegen.NamesOf | reccmp/tools/codegen.py:227-229 | every argument's type is looked up, in order |
| Codegen.NamesOfGrows | reccmp/tools/codegen.py:227-229 | the arguments' lookups only add to the cache |
| Codegen.Params | reccmp/tools/codegen.py:227-233 | one parameter per argument |
| Codegen.ArglistShape | reccmp/tools/codegen.py:223-237 | no arguments give "()"; otherwise parameter i is its type name, a space and "p_i" (the name alone for an empty type name), and the last is "..." when the final argument is T_NOTYPE |
| Codegen.Fertilizer.constructor | reccmp/tools/codegen.py:71-80 | the name cache starts as the scalar translation table |
| Codegen.Fertilizer.GetTypeName | reccmp/tools/codegen.py:201-221 | the recursive method returns the name of the lookup specification and leaves the cache as it leaves it, or raises KeyError with the cache untouched |
| Codegen.Fertilizer.GetArglist | reccmp/tools/codegen.py:223-237 | the argument list is the text of the looked-up names, and the cache is what the lookups left, also after an exception |
| Codegen.NamesErrSticks | reccmp/tools/codegen.py:227-229 | a lookup that raises ends the argument list with that exception |
| JsonBag.DropNulls | reccmp/isledecomp/compare/db.py:359-365 | the stored bag has no null member and keeps every non-null member of the given one |
| JsonBag.PatchWithEmpty | reccmp/isledecomp/compare/db.py:359-365 | merging an empty keyword dictionary leaves a stored bag as it is |
| JsonBag.PatchOntoEmpty | reccmp/isledecomp/compare/db.py:359-365 | merging onto an empty bag keeps the patch's non-null members |
| JsonBag.InsertAfterSet | reccmp/isledecomp/storage.py:56-66 | a later json_insert never overrides what a json_set wrote |
| MatchIndex.StepKeepsInv | reccmp/isledecomp/compare/match_msvc.py:60-87 | one probe keeps the pass invariant: no index list is empty, every value left was added under its key, no address is both left in the index and matched, and no address is matched twice |
| EntityBatches.LinkedInjective | reccmp/isledecomp/compare/db.py:277-283 | when every staged pair is in the reverse map, no recomp address is staged for two origs |
| EntityBatches.StageOn | reccmp/isledecomp/compare/db.py:245-275 | one staging call on a batch leaves its pending maps as the staging specification gives them |
| EntityBatches.MatchOn | reccmp/isledecomp/compare/db.py:277-283 | one match call on a batch leaves its match maps as match as written gives them |
| EntityBatches.CommitOn | reccmp/isledecomp/compare/db.py:288-321 | committing a batch leaves the table as the commit specification gives it, and adds the staged types and labels only on success |
| Dbi.NewHeaderRead | reccmp/isledecomp/formats/pdb/dbi.py:20-46 | after signature -1, the header's fields are the unpacked fields at their places, and the module records start at 64 |
| Dbi.OldHeaderRead | reccmp/isledecomp/formats/pdb/dbi.py:47-63 | without the signature, the old header's fields are read from offset 0, version 0, and the module records start at 24 |
| Dbi.OldHeaderStreams | reccmp/isledecomp/formats/pdb/dbi.py:21-22 | the old header's first two u16 fields are the two halves of the word that would hold the signature |

## Left out

- Ingestion and orchestration in `compare/core.py` are not modelled: `__init__` pass ordering, `from_target`, `_load_cvdump`, `_load_markers`, `_vtordisp`, overload naming and `FunctionComparator`. They rest on PE images, the cvdump runner and a demangler that are not part of this model.
- The core passes take the results of their SQL queries and of the image readers as parameters. These are strings with addresses, relocation sites, import and export tables, thunks and array layouts. The reads that produce them are not modelled.
- `LinesDb` in core.py calls `add_lines`, `mark_function_starts` and `find_function`, which lines.py does not define. The line pass takes `search_line`'s answer as an `Option`; a found address is a one-element result.
- Regular expressions are not modelled: cvdump/parser.py, parser/tokenizer.py, parser/util.py, both msvc_map.py files, analysis/string_const.py, and the expressions inside cvdump/symbols.py and cvdump/fieldlist.py. Their captures are the input, given as already-classified tokens and leaves.
- Each token carries a precomputed note in place of the comment helpers (`match_marker`, `is_marker_exact`, `get_synthetic_name`, `get_class_name`).
- The marker classification (function, stub, template, synthetic, library, global, string, vtable) follows the upstream marker module, which is not part of this model.
- The preprocessor works on abstract tokens. The `TokenType` members it names (PREPROCESSOR, NEWLINE and the comment kinds) are missing from tokenizer.py.
- codebase.py's `set_file` calls `reset_and_set_filename`, which parser.py lacks. It is modelled as a fresh `DecompParser` that reads the file's tokens.
- `iter_line_symbols` is not modelled, because node.py is not part of this model.
- JSON bags hold scalar values only; the stores never nest objects.
- SQLite is taken to check an upsert's conflict target first, and `search` is taken to return rows in rowid order. The keys passed to `set` are not validated as JSON path text, since the source does not validate them.
- `iter_source`, `iter_target`, `search_symbol` and `all` of the older stores are outside the modelled core.
- Floating point is not modelled: `_find_float_const`, the diff ratio of `_compare_vtable`, and the LF_REAL32/LF_REAL64 numeric leaves, whose bytes are kept raw.
- The native-size numeric-leaf reader of `reccmp/isledecomp/formats/pdb/common.py` takes the host (LP64 or LLP64) as a parameter, with a little-endian byte order.
- The MSF header formats carry no byte-order prefix. The model takes the native layout as little-endian with 4-byte alignment.
- `iter_reloc_chain` loops forever on a chain that comes back to a site it has visited. The model reports that case as the outcome `Hang`.
- Python default arguments are explicit parameters, for example `align_to`'s alignment of 4.
- The `print` calls are not modelled: in `parse_types`, in `LfFieldList` and in codegen's `run`. `parse_modules` returns the lines it would print.
- Logging is not modelled; reports are returned as sequences of events.
- Also not modelled: the command line and subprocesses (cvdump/runner.py, tools/decomplint.py, tools/vtable.py, codegen's `main` and `parse_args`), formats/detect.py, pdb/debug.py, the Ghidra scripts, and `DecompCodebase.read_file`.
- `name_strings` reads string bytes through a reader given as a parameter.
- `ReccmpFertilizer.get_names_for_types` is outside the modelled helpers of codegen.py and is not modelled.
- The NE image's `imagebase`, `entry`, `is_valid_vaddr` and region iterators are not modelled. They are constants, a one-line call of `get_abs_addr`, `True`, or raise `NotImplementedError`.
- The memoisation (`@cache`) of the name-replacement lookup is not modelled; it does not change any answer.
- The `EntityType` enum is a local datatype with every tag the code uses, LINE, WIDECHAR and IMPORT included. types.py lacks those tags.
- The ELF, NE and CodeView enums are predicates on their listed values.
- Order.Lower, Order.Upper: case folding covers the ASCII letters A-Z and a-z only, where Python's `str.lower()` and `str.upper()` fold every cased Unicode letter. The callers are `Lines.ReverseParts`, `Lines.Group`, `Lines.LinesDb` (lines.py:13, 44, 51), `CoreRules.ImportKey` (`dll.upper()`), the register location of `CvdumpSymbols` and `CvdumpFieldlist.NormalizeTypeId`. Their inputs in the last three are ASCII in practice; a file name with a non-ASCII capital is not folded.
- GroupIsFilter: groups the code files by their ASCII-lowercased name, so "Ä.cpp" and "ä.cpp" fall into different groups, where `path.name.lower()` at lines.py:44 puts them in one; the Unicode case table is not modelled.
- constructor of Lines.LinesDb: the `filenames` keys are ASCII-lowercased, not folded by the full Unicode `str.lower()` of lines.py:44, for the same reason.
- `align_to` and `read_sz_string`, which dbi.py:3 imports from `.common`, are not defined in reccmp/isledecomp/formats/pdb/common.py; the model takes them from reccmp/formats/pdb/common.py:15 and :39 (`PdbCommon.AlignTo`, `PdbCommon.ReadSzString`).
- `m.compare_type`, which replacement.py:38, 42 and 65 compare with `SymbolType`, is defined in none of the modelled files. `Replacement.CompareType` assumes it reads the entity's `type` attribute and maps it onto `EntityType`.
- Integers are unbounded. Where the source's width matters, the bound is stated explicitly, as in the `struct.pack` range checks.

## Findings

| source | as written | input that shows it | evidently intended | confidence | as-written member | corrected member |
|---|---|---|---|---|---|---|
| reccmp/isledecomp/compare/db.py:277-283 | `match` releases only the earlier owner of the recomp address. It leaves the orig's earlier recomp in the reverse map. | match(1,10), match(1,20), match(3,10): the third call finds 10 still owned by 1 and drops 1→20 | a re-paired orig keeps its new recomp address | not executed | EntityBatches.StageMatchDropsRepairedOrig | EntityBatches.StageMatchFixedKeepsRepairedOrig |
| reccmp/isledecomp/compare/db.py:315 | labels are written inside the `if self._types:` block | a batch that stages a label and no type | every staged label is written | not executed | EntityBatches.LabelWithoutTypeIsLost | EntityBatches.LabelsIntended |
| reccmp/isledecomp/compare/match_msvc.py:96 | `substr(label, 0, 255)` starts at position 0, before the first character, so it keeps 254 characters | a 255-character label | the first 255 characters, like the Python-side cut at match_msvc.py:55-56 | not executed | RankJoin.SubstrDropsChar255 | RankJoin.Cut255 |
| reccmp/isledecomp/compare/match_msvc.py:105-112 | `type is null or type = ? and unmatched` parses as `type is null or (type = ? and unmatched)` | an untyped label on an orig address that is already matched | only unmatched addresses are candidates | not executed | RankJoin.MatchedUntypedIsCandidate | RankJoin.TypeLabelMatchesIntendedSound |
| reccmp/isledecomp/formats/pdb/tpi.py:118-120 | the entries are cut at `leaf_size + 2` counted from the start of the whole buffer | a method list whose offset is at least its own size | the cut is counted from the record's offset | not executed | TpiLists.LaterMethodList | TpiLists.MethodListRoundTrip |
| reccmp/isledecomp/formats/pdb/tpi.py:96-101 | `attr & 24 in (24, 16)` gives a vbaseoff to method properties 4 to 7 | a pure virtual entry (property 5) ending the list | only the introducing virtuals (4 and 6) carry a vbaseoff | not executed | TpiLists.PureVirtualEntry | TpiLists.EntriesRoundTrip |
| reccmp/isledecomp/formats/pdb/tpi.py:395-403 | the argument list reads a 16-bit count and 16-bit indices in both layouts | an LF_ARGLIST in the 32-bit layout with one index | the 32-bit layout has a 32-bit count and 32-bit indices | not executed | TpiLists.WideArgList | TpiLists.ArgListRoundTrip |
| reccmp/isledecomp/formats/pdb/tpi.py:217-219 | the pointer flags are masked with 0x700, which drops bit 0x800 | an UNALIGNED pointer with no other flag | the mask 0xF00, which keeps UNALIGNED | not executed | TpiPointer.UnalignedLost | TpiPointer.PointerAttrRoundTrip |
| reccmp/isledecomp/formats/elf.py:251-256 | `e_ident[5]` is an int and is compared with the bytes objects `b"\x01"` and `b"\x02"` | any header, a valid little-endian one included | data byte 1 is little-endian and 2 big-endian | not executed | Elf.EndianessAlwaysRaises | Elf.ParsedEndianess |
| reccmp/isledecomp/formats/ne.py:490-495 | `segments[section - 1]` accepts section 0 through Python's negative indexing | section 0 | sections are 1-based, as `_get_segment` asserts | not executed | Ne.SectionZeroIsLast | Ne.GetAbsAddr |
| reccmp/isledecomp/parser/preprocessor.py:114-120 | `#endif` compares the top of the stack with the level after decrementing it, so a block it acted on is never closed | `#ifdef XYZ`, `#endif` and a word, with XYZ undefined | `#endif` closes the block on top of the stack and output resumes | not executed | Preprocessor.EndifNeverClosesFailedBlock | Preprocessor.EndifFixedCloses |
| reccmp/isledecomp/parser/preprocessor.py:114-120 | a closed `#ifndef` leaves its depth on the stack | `#ifndef A`, `#endif`, then `#ifndef B` | the stack holds only open blocks | not executed | Preprocessor.StackRepeatsDepth | Preprocessor.BlockIsBalanced |
| reccmp/isledecomp/parser/preprocessor.py:84-88 | `#define` and `#undef` switch to the collecting mode, and nothing switches back | `#define X`, a newline, then a word | output resumes after the directive's line | not executed | Preprocessor.DefineStopsOutput | Preprocessor.DefineResumesOutput |
