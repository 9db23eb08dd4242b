# rgw-decoder in Dafny

A model of the decoder that reads Ceph RADOS Gateway metadata out of its binary
encoding: the byte cursor and its struct envelopes (`decode.go`), the object-manifest
structs, the manifest's rule table and the stripe iterator that names every RADOS
object of an RGW object (`object.go`), and the user-bucket records (`user.go`).

How the model is built:

- **Wire format (`wire.dfy`).** Each read is a pure function `XAt(data, pos)`. It
  returns the value read and the position after it, or the error.
- **Cursor (`decode.dfy`).** The source's cursor is the class `Decode.Decoder`, with a
  buffer and an offset. Its methods are proved to agree with the wire functions:
  same value, same new offset, same error.
- **Struct decoders.** Each struct decoder is a spec function (`BucketAt`, `ManifestAt`,
  `UserBucketEntryAt`, …) that follows the source's version table branch by branch.
  Beside it is an imperative method on the shared `Decoder` that reads the same fields
  in the same order and is proved equal to it. The manifest's part and rule loops are
  `while` loops with invariants.
- **Theorems about the decoders.** The version gates (which fields a version leaves
  empty or copies) and the part-0 repair are stated as theorems. Reference encoders are
  proved to read back whole.
- **Rule table (`rules.dfy`).** `begin`, `upperBound`, `forward` and `backward` are
  specified by what they find among the keys: the least key, the next key above or
  below, the greatest key.
- **Iterator (`iteration.dfy`, `manifest.dfy`).** `seek`, `iterate` and
  `updataLocation` are functions over the iterator's fields. The class `ObjIterator`
  holds those fields and its methods are proved to update them exactly as the functions
  say. `RadosObjectsKeys` is a loop on the manifest's begin iterator.
- **Theorems about the iterator (`iteration_lemmas.dfy`).** Where `seek` lands, what
  one step does inside a part and across parts, and how many keys a plain striped
  object has.

Go's fixed-width arithmetic (uint64 and uint32 wrap-around, `int32(...)` truncation) is
written out with `Wrap64`, `Wrap32` and `ToI32`. A read past the end of the buffer is a
panic in the source; here it is the failure `Truncated`. `begin()` on an empty rule
table is also a panic in the source; here it is the failure `NoRules`.

## Model

| member | source | states |
|---|---|---|
| Ints.Wrap64 | object.go:164-171 | uint64 arithmetic wraps: a value already in range is unchanged, and a negative difference gains 2^64 |
| Ints.Wrap32 | object.go:168 | the uint32 subtraction wraps: a value in range is unchanged, and a negative difference gains 2^32 |
| Ints.ToI32 | object.go:164-170 | `int32(x)` keeps a value in the int32 range and otherwise differs from x by a multiple of 2^32 |
| Ints.Min64 | object.go:926-931 | `minuint64` returns one of its arguments, and that argument is at most both |
| Text.FromBytes | decode.go:46-54 | a decoded string has one character per byte, with the byte as its code |
| Text.FromBytesIsByteString | decode.go:46-54 | every decoded string is a byte string, and its bytes give back the buffer slice |
| Text.Decimal | object.go:570 | `%d` of an unsigned id is a non-empty string of digits; it starts with '0' only for 0 |
| Text.ParseDecimalOfDecimal | object.go:570 | reading the digits back gives the number: no id is lost in the printing |
| Text.SignedDecimal | object.go:418-428 | `%d` of a part or stripe number is a minus sign for negatives and then the digits of the magnitude |
| Text.IndexOf | object.go:682 | `strings.Index` gives -1 exactly when the character is absent; otherwise the first position holding it |
| Text.TrimPrefix | object.go:673 | `strings.TrimPrefix` drops one leading '_' if there is one and leaves the string otherwise |
| Wire.LEOfEncodeLE | decode.go:32-44 | reading the little-endian encoding of a value back gives the value |
| Wire.EncodeLEOfLE | decode.go:32-44 | encoding the little-endian value of n bytes gives the bytes back |
| Wire.ReadAt | decode.go:14-18 | `readNextBytes` succeeds exactly when the bytes are there; it returns them verbatim and advances by n; otherwise it fails with Truncated |
| Wire.U8At | decode.go:24-26 | `decodeU8` is the byte at the position, or Truncated at the end of the buffer |
| Wire.BoolAt | decode.go:28-30 | `decodeBool` is true exactly when the byte is not zero |
| Wire.U32At | decode.go:32-37 | `decodeU32` is the little-endian value of the next 4 bytes, or Truncated |
| Wire.U64At | decode.go:39-44 | `decodeU64` is the little-endian value of the next 8 bytes, or Truncated |
| Wire.StringAt | decode.go:46-54 | `decodeString` succeeds exactly when the length and that many bytes fit; it returns those bytes and ends after them |
| Wire.TimeAt | decode.go:56-63 | `decodeTime` is two little-endian u32 values, seconds then nanoseconds |
| Wire.StartAt | decode.go:65-82 | `decodeStart` gives OldVersion exactly when the compat byte exceeds the supported version, and succeeds exactly when the declared length fits what remains; the struct end is then the position after the header plus the length; any other failure is Truncated or Past |
| Wire.StartLegacyAt | decode.go:84-112 | `decodeStartLegacyCompatLen` reads a compat byte only from compatV on and a length only from lenV on. It succeeds exactly when the header bytes are there, the compat byte (when read) is within the supported version, and the length (when read) and that many bytes fit. It fails with Past exactly when the length is read but does not fit, and with OldVersion exactly when the compat byte is read and exceeds the supported version; errors are only Truncated, OldVersion or Past. The struct end is the position after the length plus the length, or 0 without a length |
| Wire.Finish | decode.go:114-121 | `decodeFinish` fails with Past exactly when a non-zero struct end has been passed, and otherwise keeps the value and position |
| Wire.U32AtEncoded | decode.go:32-37 | an encoded u32 reads back as itself |
| Wire.U64AtEncoded | decode.go:39-44 | an encoded u64 reads back as itself |
| Wire.StringAtEncoded | decode.go:46-54 | an encoded string reads back as itself and ends after its bytes |
| Wire.StartAtEncoded | decode.go:65-82 | an encoded header with an acceptable compat byte and a fitting length reads back as its version and end |
| Wire.StartLegacyAtEncoded | decode.go:84-112 | the same for the legacy header, when the version carries both the compat byte and the length |
| Wire.StartLegacyAtShort | decode.go:84-112 | a version below lenV, with its compat byte when the version carries one, reads back as that version with struct end 0, ending after those one or two bytes |
| Decode.Decoder.constructor | decode.go:123-127 | a new cursor is at offset 0 of the given buffer |
| Decode.Decoder.Remaining | decode.go:20-22 | `getRemaining` plus the offset is the buffer length |
| Decode.Decoder.ReadNextBytes | decode.go:14-18 | the cursor read agrees with ReadAt: same bytes, same new offset, or Truncated |
| Decode.Decoder.DecodeU8 | decode.go:24-26 | agrees with U8At |
| Decode.Decoder.DecodeBool | decode.go:28-30 | agrees with BoolAt |
| Decode.Decoder.DecodeU32 | decode.go:32-37 | agrees with U32At |
| Decode.Decoder.DecodeU64 | decode.go:39-44 | agrees with U64At |
| Decode.Decoder.DecodeString | decode.go:46-54 | agrees with StringAt |
| Decode.Decoder.DecodeTime | decode.go:56-63 | agrees with TimeAt |
| Decode.Decoder.DecodeStart | decode.go:65-82 | agrees with StartAt; an old-version failure has consumed two bytes, and a length that does not fit has consumed six |
| Decode.Decoder.DecodeStartLegacy | decode.go:84-112 | agrees with StartLegacyAt; an old-version failure has consumed two bytes |
| Decode.Decoder.DecodeFinish | decode.go:114-121 | fails, with Past, exactly when a non-zero struct end has been passed; it moves nothing |
| Decode.DecodeAccessKey | decode.go:123-128 | the access key is the string at the start of the buffer, or that read's error |
| Objects.FromStr | object.go:472-481 | `fromStr` splits at the first '/': the name has no '/', and name + "/" + class is the input; without '/' the whole input is the name |
| Objects.GetOid | object.go:451-466 | `getOID` is the bare name (escaped with one '_' when it starts with '_') for a key with a namespace and no instance; otherwise "_" + namespace, ":" + instance when one is needed (`needToEncodeInstance`: not "" and not "null"), "_" + name |
| Objects.NeedToEncodeInstance | object.go:468-470 | defines `needToEncodeInstance`: an instance other than "" and "null" |
| Objects.GetOidEmpty | object.go:858-866 | getOID is empty exactly for an empty name in a namespace without an instance; so the part-0 repair's guard holds exactly for a namespaced key with a name or an instance |
| Rules.SortSetMembers | object.go:267-273 | the sorted key list holds each key of the table once and nothing else |
| Rules.SortSetIncreasing | object.go:271-273 | the sorted key list is strictly increasing |
| Rules.SortSetFacts | object.go:267-273 | the key list the navigation functions build is strictly increasing and holds exactly the table's keys |
| Rules.SortedKeysFacts | object.go:287-294 | the same for the key list of a rule table |
| Rules.IndexOfKey | object.go:299-304 | the key search finds the index holding the key, or -1 exactly when the key is absent |
| Rules.FirstAbove | object.go:352-359 | the scan of `upperBound` stops at the first key above the search key, every key before it being at most that key |
| Rules.NextAboveAt | object.go:326-341 | in the sorted list, each key's successor is the next key of the table above it |
| Rules.NextBelowAt | object.go:298-315 | in the sorted list, each key's predecessor is the next key of the table below it |
| Rules.Extremes | object.go:274-277 | the first key of the sorted list is the table's least, the last its greatest |
| Rules.GreatestIsLast | object.go:332-337 | only the last index holds the greatest key, so `forward` ends after exactly that key |
| Rules.LeastIsFirst | object.go:305-311 | only index 0 holds the least key, so `backward` wraps from exactly that key |
| Rules.AboveFrom | object.go:352-362 | the index where the scan stops is past the end exactly when no key exceeds the search key, and otherwise holds the next key above it |
| Rules.Equal | object.go:365-373 | defines `rulePair.equal`: the end equals only the end, and two entries are equal when their keys are |
| Rules.EqualIsIdentity | object.go:365-373 | on entries of one table and the end, `rulePair.equal` (end equals only end, entries compare keys) is plain equality |
| Rules.Begin | object.go:266-278 | `begin` is the entry with the least key, carrying that key's rule |
| Rules.UpperBound | object.go:344-363 | `upperBound` is the end exactly when no key exceeds the search key; otherwise the entry with the least key above it |
| Rules.Forward | object.go:318-342 | `forward` from the end stays at the end; from a key it gives the end exactly at the greatest key and otherwise the next key above; from a key not in the table it gives the least key, or the end for an empty table |
| Rules.BackwardIndex | object.go:296-311 | the index `backward` picks is always inside the key list |
| Rules.BackwardFromEdge | object.go:305-311 | from the end or the least key, `backward` wraps to the greatest key |
| Rules.BackwardFromKey | object.go:298-315 | from any other key, `backward` gives the next key below |
| Rules.BackwardFromMissing | object.go:298-315 | from a key not in the table, `backward` gives the least key (the source's initial index 0) |
| Rules.Backward | object.go:286-316 | `backward` always gives an entry: the greatest from the end or from the least key, the next key below from another key, the least from a key not in the table |
| Iteration.StripeSuffix | object.go:418-431 | defines the tail object suffix: the stripe number in part 0, "." + part at stripe 0 of a numbered part, "." + part + "_" + stripe elsewhere |
| Iteration.ImplicitLocation | object.go:399-445 | defines `getImplicitLocation` branch by branch, with the placement rule empty as the final assignment leaves it |
| Iteration.ImplicitLocationFacts | object.go:399-445 | `getImplicitLocation` selects the head object for part 0 below the maximum head size; otherwise the tail object whose name is the prefix (or override prefix) plus the part/stripe suffix, in the multipart namespace at stripe 0 of a numbered part and the shadow namespace elsewhere, in the tail bucket when it has a name and the head bucket otherwise, with the tail instance; its placement rule is always empty, because the source overwrites it |
| Iteration.UpdateLocation | object.go:195-204 | `updataLocation` changes only the location: below the head size the head object with the head placement rule, elsewhere the implicit location of the current part and stripe |
| Iteration.GoverningRule | object.go:149-159 | the rule `seek` settles on is an entry; it has the greatest key at or below the offset when there is one, and the least key otherwise |
| Iteration.SeekInRule | object.go:161-188 | under its rule, `seek` sets the part number, part offset, stripe, stripe offset and stripe size by the source's formulas, counting one more stripe in part 0 with a head, and keeps the offset and rule positions |
| Iteration.Seek | object.go:136-189 | `seek` lands on the offset; in the head on the first rule, with stripe offset 0 and the head size as stripe size; past the head on the governing rule, with the upper bound as the next rule |
| Iteration.NextPart | object.go:236-254 | the part branch of `iterate` keeps the offset |
| Iteration.NextPartStart | object.go:237-252 | moving to the next part keeps the offset |
| Iteration.Iterate | object.go:206-264 | defines `iterate`: no change at the object size or without rules, the head step below the head size, the tail step otherwise |
| Iteration.FirstStripe | object.go:217-228 | defines the head branch of `iterate`: the first rule, the offset and stripe offset at the head size capped by the object size, stripe 1, a stripe size capped by the rule, the rest of the object and the part size, then `updataLocation` |
| Iteration.NextStripe | object.go:231-263 | defines the tail branch of `iterate`: StripeStep followed by `updataLocation` |
| Iteration.StripeStep | object.go:231-262 | defines the tail branch before `updataLocation`: the stripe offset moves by the stripe size with uint64 wrap-around, the stripe number by one with int32 wrap-around, the part branch when the rule has parts, the override prefix of the current rule, and the cap at the object size |
| Iteration.StripeAdvance | object.go:233-234 | defines the first statements of the tail branch: the stripe offset plus the stripe size with uint64 wrap-around, the stripe number plus one with int32 wrap-around |
| Iteration.StripeSettle | object.go:256-262 | defines the last statements of the tail branch: the current rule's override prefix, the offset set to the stripe offset, and past the object size both capped there with an empty stripe |
| Iteration.BeginState | object.go:392-397 | the begin iterator `updateIterators` builds is at offset 0 |
| Iteration.EndState | object.go:392-397 | the end iterator `updateIterators` builds is at the object size |
| Iteration.KeyOf | object.go:378-385 | a RADOS key is marker + "__" + namespace + "_" + name, or marker + "_" + name without a namespace |
| Iteration.KeysFromAt | object.go:375-390 | the j-th key is the key of the position reached after j steps of `iterate` |
| Iteration.StepsTo | object.go:377 | the loop count of `RadosObjectsKeys` is the first step count at which the begin iterator stands at the end iterator's offset |
| IterationFacts.PartStartNoWrap | object.go:168 | without wrap-around, part n of a rule starts at StartOfs + n * PartSize |
| IterationFacts.StripeNoWrap | object.go:169-171 | without wrap-around, the stripe index is the offset's distance into the part divided by the stripe size, and that stripe holds the offset |
| IterationFacts.SeekInPartedRule | object.go:161-188 | under a rule with parts, `seek` puts the iterator in part StartPartNum + (ofs - StartOfs) / PartSize, in the stripe holding the offset, with a stripe that fits both the rule's stripe size and the part |
| IterationFacts.SeekParted | object.go:136-189 | the same for `seek` past the head, under its governing rule |
| IterationFacts.SeekInUnpartedRule | object.go:161-188 | under a rule without parts, `seek` puts the iterator in the rule's first part, in the stripe holding the offset, with a stripe that fits both the rule's stripe size and the object |
| IterationFacts.SeekUnparted | object.go:136-189 | the same for `seek` past the head, under its governing rule |
| IterationFacts.IterateFacts | object.go:206-264 | `iterate` changes nothing at the object size or without rules; a step leaves the offset at most the object size, the stripe offset on the offset and the location as `updataLocation` sets it. The head step goes to the first rule, to the head size capped by the object size, at stripe 1, with a stripe that fits the rule, the rest of the object and the part. The tail step goes to the next stripe (or part) start capped by the object size, with stripe size 0 past it, takes the rule's override prefix, and keeps the rule positions without parts |
| IterationFacts.FirstStripeFacts | object.go:217-228 | the head step as IterateFacts states it |
| IterationFacts.StripeStepFacts | object.go:231-262 | the tail step before `updataLocation`, as IterateFacts states it |
| IterationFacts.IterateWithinPart | object.go:231-263 | a step inside a part moves the stripe on by the stripe size, and the offset with it up to the object size; it keeps the part and the rule |
| IterationFacts.IterateAcrossParts | object.go:236-254 | a step across a part boundary restarts the stripe at 0 and moves the part offset by the part size. The next rule takes over when its start is reached, and the part number becomes its first part; otherwise the part number goes up by one |
| IterationFacts.TailStep | object.go:231-263 | in the tail of a plain striped object, a step advances the offset by one stripe, up to the object size |
| IterationFacts.StepsFromTail | object.go:375-390 | from a tail position, the end of the object is reached after ceil(remaining / stripe size) steps |
| IterationFacts.BeginWithoutHead | object.go:392-397 | without a head, the begin iterator is in the tail at offset 0 |
| IterationFacts.BeginWithHead | object.go:217-228 | with a head, the begin iterator is at 0, and one step takes it to the end of the head, into the tail when the object is longer |
| IterationFacts.StripedKeys | object.go:375-397 | for a plain striped object, iteration from the begin iterator reaches the end, after one key for a non-empty head plus one per stripe of the rest |
| IterationFacts.StripedWithoutHead | object.go:375-397 | the key count without a head |
| IterationFacts.StripedEmpty | object.go:375-397 | the key count of an empty object with a head: none |
| IterationFacts.StripedHeadOnly | object.go:375-397 | the key count of an object that fits in its head: one |
| IterationFacts.StripedHeadAndTail | object.go:375-397 | the key count of an object with a head and a tail |
| IterationFacts.StalledStep | object.go:233 | `iterate` adds the stripe size unchecked: under a rule with neither part size nor stripe size, a step leaves the offset where it is |
| IterationFacts.StalledForever | object.go:375-390 | from such a position, no number of steps reaches the end of the object |
| IterationFacts.HeadThenPartsFirstSteps | object.go:206-264 | for a one-byte head before a rule with 2-byte parts and 1-byte stripes, the begin iterator stands at 0, then at 1, and after the second step is stalled on a rule with neither part size nor stripe size |
| IterationFacts.HeadThenPartsStalls | object.go:375-390 | for that manifest, the begin iterator never reaches the end. The head branch of `seek` leaves the next-rule position at its zero value, and the first part boundary switches to that zero rule. So `RadosObjectsKeys` does not return |
| Manifests.UpdateLocationOn | object.go:195-204 | the statements of `updataLocation` compute UpdateLocation |
| Manifests.SeekOn | object.go:136-189 | the statements of `seek` compute Seek |
| Manifests.SeekInRuleOn | object.go:161-188 | the part and stripe statements of `seek` compute SeekInRule |
| Manifests.IterateOn | object.go:206-264 | the statements of `iterate` compute Iterate |
| Manifests.FirstStripeOn | object.go:217-228 | the head branch of `iterate` computes its step |
| Manifests.NextStripeOn | object.go:231-263 | the tail branch of `iterate` computes its step |
| Manifests.StripeStepOn | object.go:231-262 | the same branch before `updataLocation` |
| Manifests.NextPartOn | object.go:236-254 | the part-size branch of `iterate` computes NextPart |
| Manifests.StartPartOn | object.go:237-252 | the move to the next part computes NextPartStart |
| Manifests.ObjIterator.constructor | object.go:128-134 | `initObjIterator` leaves the fields as `seek(0)` on the zero iterator |
| Manifests.ObjIterator.UpdateLocation | object.go:195-204 | the fields become UpdateLocation of the old fields |
| Manifests.ObjIterator.Seek | object.go:136-189 | the fields become Seek of the old fields |
| Manifests.ObjIterator.Equal | object.go:191-193 | iterators are equal exactly when they stand at the same offset |
| Manifests.ObjIterator.Iterate | object.go:206-264 | the fields become Iterate of the old fields |
| Manifests.ObjManifest.constructor | object.go:392-397 | `updateIterators` makes two fresh, distinct iterators, the begin iterator as BeginState and the end iterator as EndState |
| Manifests.ObjManifest.RadosObjectsKeys | object.go:375-390 | the keys are KeysFrom the begin iterator for exactly the steps needed to reach the end iterator's offset; the begin iterator is left after those steps |
| Manifests.ObjManifest.EmitKey | object.go:378-387 | one loop round appends the key of the current location and steps the iterator once |
| ObjectDecode.PlacementRuleAt | object.go:483-492 | a placement rule fails only with Truncated |
| ObjectDecode.ObjKeyAt | object.go:494-518 | defines `decodeRGWObjKey` on the buffer: a decodeStart(2) header, name, instance, and the namespace from version 2, with no end check |
| ObjectDecode.PoolAt | object.go:520-538 | defines `decodeRGWPool`: a legacy (10, 3, 3) header, name, namespace, the end check |
| ObjectDecode.BucketIdsAt | object.go:559-578 | defines the id stage of `decodeRGWBucket`: the marker, then a u64 printed in decimal up to version 3 or a string |
| ObjectDecode.LegacyPoolsAt | object.go:579-596 | defines the pre-10 pool stage: from 5 the data pool name is read again, before 5 the index pool copies the data pool, from 7 the extra pool name |
| ObjectDecode.ExplicitPoolsAt | object.go:604-625 | defines the version-10 placement: a flag and, when set, the data, extra and index pools |
| ObjectDecode.BucketAt | object.go:540-628 | defines `decodeRGWBucket`: a legacy (10, 3, 3) header, the name, the data pool name before 10, the ids from 2, the legacy pools before 10, the tenant from 8, the explicit placement from 10, the end check |
| ObjectDecode.LegacyObjAt | object.go:637-688 | defines the legacy layout of `decodeRGWObj`: bucket name, a skipped string, namespace, key name, the bucket from 2, the instance from 4, then the name fix-up |
| ObjectDecode.LegacyNameAt | object.go:672-688 | defines the key-name fix-up: one leading '_' dropped without namespace and instance; otherwise a new name from 5, or the name cut after its first '_' before 5, Past when there is none |
| ObjectDecode.ObjAt | object.go:630-714 | defines `decodeRGWObj`: a legacy (6, 3, 3) header, the legacy layout before 6, else bucket, namespace, name, instance; the end check |
| ObjectDecode.ManifestRuleAt | object.go:716-757 | defines `decodeRGWObjManifestRule`: a decodeStart(2) header, start part number, start offset, part size, stripe size, the override prefix from 2, the end check |
| ObjectDecode.ManifestPartAt | object.go:759-784 | defines `decodeRGWObjManifestPart`: a legacy (2, 2, 2) header, the object, its offset and size, the end check |
| ObjectDecode.DecodePlacementRule | object.go:483-492 | agrees with PlacementRuleAt: a string split by `fromStr` |
| ObjectDecode.DecodeObjKey | object.go:494-518 | agrees with ObjKeyAt: a decodeStart(2) header, name, instance, and namespace from version 2, with no struct end check |
| ObjectDecode.DecodePool | object.go:520-538 | agrees with PoolAt: a legacy (10, 3, 3) header, name, namespace, end check |
| ObjectDecode.DecodeBucket | object.go:540-628 | agrees with BucketAt: every version branch of `decodeRGWBucket` |
| ObjectDecode.DecodeBucketIds | object.go:559-578 | agrees with BucketIdsAt: a marker, and a decimal u64 id up to version 3 or a string id later |
| ObjectDecode.DecodeLegacyPools | object.go:579-596 | agrees with LegacyPoolsAt |
| ObjectDecode.DecodeExplicitPools | object.go:604-625 | agrees with ExplicitPoolsAt: a flag, then the three pools when it is set |
| ObjectDecode.DecodeObj | object.go:630-714 | agrees with ObjAt: the legacy layout before version 6, bucket, namespace, name and instance after |
| ObjectDecode.DecodeLegacyObj | object.go:637-688 | agrees with LegacyObjAt |
| ObjectDecode.DecodeLegacyName | object.go:672-688 | agrees with LegacyNameAt |
| ObjectDecode.DecodeManifestRule | object.go:716-757 | agrees with ManifestRuleAt: a decodeStart(2) header, the four numbers, the override prefix from version 2, the end check |
| ObjectDecode.DecodeManifestPart | object.go:759-784 | agrees with ManifestPartAt: a legacy (2, 2, 2) header, object, location offset, size, the end check |
| Codec.StringThen | decode.go:46-54 | an encoded string reads back as itself, and the bytes after it are what follows |
| Codec.U32Then | decode.go:32-37 | an encoded u32 reads back as itself, and the bytes after it are what follows |
| Codec.U64Then | decode.go:39-44 | an encoded u64 reads back as itself, and the bytes after it are what follows |
| Codec.FromStrToStr | object.go:472-481 | `fromStr` of a rule's string form gives the rule back, for every name without '/' |
| Codec.ToStrFromStr | object.go:472-481 | the string form of `fromStr(s)` gives s back, except for a string whose first '/' is its last character |
| Codec.PlacementRuleRoundTrip | object.go:483-492 | an encoded placement rule whose name has no '/' decodes to itself |
| Codec.PoolRoundTrip | object.go:520-538 | an encoded version-10 pool decodes to itself and ends where its encoding ends |
| Codec.ObjKeyRoundTrip | object.go:494-518 | an encoded version-2 key decodes to itself and ends where its encoding ends |
| Codec.ManifestRuleRoundTrip | object.go:716-757 | an encoded version-2 rule decodes to itself and ends where its encoding ends |
| DecodeFacts.ObjKeyVersions | object.go:510-516 | a key before version 2 has no namespace |
| DecodeFacts.ObjKeyEndNotChecked | object.go:494-518 | a key that declares an empty body but carries three strings still decodes, ending 13 bytes past its declared end, because `decodeRGWObjKey` never calls `decodeFinish` |
| DecodeFacts.ManifestPartRoundTrip | object.go:759-784 | a legacy (2, 2, 2) header whose length covers an object, a location offset and a size decodes to that part and ends at the declared struct end |
| DecodeFacts.BucketIdsFacts | object.go:559-578 | the id stage sets the marker and id only: the marker is the first string; up to version 3 the id is the decimal form of the u64 after it (so decimal digits), later the string after it |
| DecodeFacts.LegacyPoolsFacts | object.go:579-596 | the pre-10 pool stage keeps name, tenant, marker, id and the data pool's namespace. Before 5 the index pool becomes the data pool, which is kept; from 5 the data pool's name is overwritten by the string read and the index pool is kept. Before 7 the extra pool is untouched; from 7 its name is the next string |
| DecodeFacts.BucketVersions | object.go:540-628 | a decoded bucket has no marker or id before version 2; at 2 and 3 its marker is the string after the pool name and its id is the decimal form of the u64 after the marker; the index pool equals the data pool before 5; no extra pool before 7; no tenant before 8 |
| DecodeFacts.LegacyNameCases | object.go:672-688 | the legacy name fix-up changes only the name. Without namespace and instance it drops one leading '_'. Otherwise, from version 5 it reads a new name. Before 5 it cuts through the first '_', and fails with Past exactly when there is none |
| DecodeFacts.EntriesKeys | object.go:805-815 | a table read entry by entry keeps the keys it started with and gains at most one key per entry read |
| DecodeFacts.RepairPartZeroWhen | object.go:858-866 | the part-0 repair fires exactly with explicit objects, a head, some parts, and a part-0 key with a namespace and a name or an instance. It then makes part 0 the head object with the head size, and changes nothing else |
| DecodeFacts.TailPlacementDefault | object.go:868-886 | the tail stage changes only the tail bucket; with the version-6 flag clear it is the head object's bucket |
| DecodeFacts.TailInstanceDefault | object.go:888-908 | the tail-instance stage changes only the tail instance; before 5, and with the version-6 flag clear, it is the head object's instance |
| DecodeFacts.TailHalfKeepsRules | object.go:868-921 | the stages after the part-0 repair leave the rule table alone |
| DecodeFacts.ManifestNeedsRules | object.go:786-924 | a manifest decodes only from version 4, and always with a non-empty rule table, since `updateIterators` panics on an empty one |
| ManifestDecode.EntriesAt | object.go:805-815 | defines a table loop: n entries read one after another, each stored under its key so that a repeated key keeps the later entry, or the first failure |
| ManifestDecode.EntryAt | object.go:806-814 | defines one table entry: a u64 key and the entry after it |
| ManifestDecode.HeadFieldsAt | object.go:816-857 | defines the version-4 fields: the explicit-objects flag, object, head size, maximum head size, prefix and the rule table |
| ManifestDecode.RepairPartZero | object.go:858-866 | defines the part-0 repair: with explicit objects, a head and parts, a part 0 with a non-empty getOID and a namespace becomes the head object with the head size; an absent part 0 reads as the zero part |
| ManifestDecode.TailPlacementAt | object.go:868-886 | defines the tail bucket: read before 6; from 6 read when a flag is set, else the head object's bucket |
| ManifestDecode.TailInstanceAt | object.go:888-908 | defines the tail instance: read at 5; from 6 read when a flag is set; else, and before 5, the head object's instance |
| ManifestDecode.PlacementRulesAt | object.go:909-921 | defines the head and tail placement rules, in that order |
| ManifestDecode.HeadHalfAt | object.go:796-866 | defines the object size, the parts table, the version-4 fields from 4, then the part-0 repair |
| ManifestDecode.TailHalfAt | object.go:868-921 | defines the tail bucket from 4, the tail instance, and the placement rules from 7 |
| ManifestDecode.ManifestAt | object.go:786-924 | defines `decodeRGWObjManifest`: a legacy (7, 2, 2) header, the two halves, NoRules for an empty rule table, the end check |
| ManifestDecode.EntriesFailFrom | object.go:805-815 | once an entry of a table fails, the whole table fails with the same error |
| ManifestDecode.DecodePartEntry | object.go:806-814 | agrees with EntryAt for a part: a u64 key, then the part |
| ManifestDecode.DecodeRuleEntry | object.go:847-855 | agrees with EntryAt for a rule: a u64 key, then the rule |
| ManifestDecode.DecodeParts | object.go:805-815 | the parts loop agrees with EntriesAt: n entries stored by key in the order read, or the first failure |
| ManifestDecode.DecodeRules | object.go:846-856 | the rules loop agrees with EntriesAt |
| ManifestDecode.DecodeHeadFields | object.go:816-857 | agrees with HeadFieldsAt: the flag, object, head size, maximum head size, prefix and rule table |
| ManifestDecode.DecodeHeadHalf | object.go:796-866 | agrees with HeadHalfAt: object size, parts, the version-4 fields, the part-0 repair |
| ManifestDecode.DecodeTailPlacement | object.go:868-886 | agrees with TailPlacementAt |
| ManifestDecode.DecodeTailInstance | object.go:888-908 | agrees with TailInstanceAt |
| ManifestDecode.DecodePlacementRules | object.go:909-921 | agrees with PlacementRulesAt: the head and tail placement rules |
| ManifestDecode.DecodeTailHalf | object.go:868-921 | agrees with TailHalfAt |
| ManifestDecode.FinishManifest | object.go:922-923 | an empty rule table fails with NoRules; otherwise the iterators are placed by `updateIterators` and the struct end is checked |
| ManifestDecode.DecodeManifest | object.go:786-924 | agrees with ManifestAt: the decoded fields, the end position, and the begin and end iterators at BeginState and EndState, or the same error |
| ManifestDecode.DecodeRGWObjManifest | object.go:121-126 | the manifest at the start of the buffer, as DecodeManifest describes |
| UserDecode.UserBucketIdsAt | user.go:55-75 | defines the id stage of `decodeUserBucket`: from 2 a marker, then a u64 printed in decimal up to 3 or a string |
| UserDecode.UserPoolsAt | user.go:76-108 | defines the pool stage: before 8 the index pool, read from 5 and copied from the data pool before; from 8 a placement id, and at 8 with a non-empty id the data, index and extra pool names |
| UserDecode.UserBucketAt | user.go:37-115 | defines `decodeUserBucket`: a legacy (8, 3, 3) header, name, the data pool before 8, the ids, the pools, the end check |
| UserDecode.EntryFieldsAt | user.go:147-171 | defines the gated entry fields: count from 2, bucket from 3, rounded size from 4, sync flag (a non-zero u8) from 6 |
| UserDecode.UserBucketEntryAt | user.go:125-173 | defines `decodeUserBucketEntry`: a legacy (9, 5, 5) header, NotCompat for a non-empty leading string, the size (also the rounded size), a skipped u32, the gated fields, the end check |
| UserDecode.DecodeUserBucketIds | user.go:55-75 | agrees with UserBucketIdsAt: a marker, and a decimal u64 id up to version 3 or a string id later |
| UserDecode.DecodeUserPools | user.go:76-108 | agrees with UserPoolsAt: the index pool before 8; from 8 a placement id, and at 8 with a non-empty id the three pool names |
| UserDecode.DecodeUserBucketFrom | user.go:37-115 | agrees with UserBucketAt: every version branch and the inline end check |
| UserDecode.DecodeUserBucket | user.go:23-28 | the user bucket at the start of the buffer, as UserBucketAt describes |
| UserDecode.DecodeEntryFields | user.go:147-171 | agrees with EntryFieldsAt: count from 2, bucket from 3, rounded size from 4, sync flag from 6 |
| UserDecode.DecodeUserBucketEntryFrom | user.go:125-173 | agrees with UserBucketEntryAt: a non-empty leading string is NotCompat, then the size (also the rounded size), a skipped u32, the gated fields and the end check |
| UserDecode.DecodeUserBucketEntry | user.go:30-35 | the entry at the start of the buffer, as UserBucketEntryAt describes |
| UserFacts.UserBucketIdsFacts | user.go:55-75 | the id stage changes only marker and id, and nothing before 2; from 2 the marker is the first string, the id the decimal form of the next u64 up to 3, the next string later |
| UserFacts.UserPoolsFacts | user.go:76-108 | the pool stage changes only the placement: before 5 the index pool copies the data pool; from 5 before 8 it is the string read; from 8 nothing changes unless the version is 8 and the placement id is non-empty, when the placement is the three following strings |
| UserFacts.UserBucketVersions | user.go:37-115 | a decoded user bucket never keeps the placement id; it has no marker or id before 2; at 2 and 3 the marker is the string after the data pool name and the id the decimal form of the u64 after it; the index pool equals the data pool before 5; no extra pool before 8; at 8 an empty placement id leaves the placement empty; no explicit placement from 9 |
| UserFacts.UserBucketEntryVersions | user.go:125-173 | a decoded entry follows an empty string; its size is the first u64 and is the rounded size before 4; it has no count before 2, no bucket before 3, no sync flag before 6 |
| UserFacts.UserBucketEntryNotCompat | user.go:131-134 | a non-empty leading string refuses the entry with NotCompat, whatever follows |
| UserFacts.UserBucketRoundTrip | user.go:37-115 | an encoded version-9 user bucket without placement id or explicit placement decodes to itself, anywhere in a buffer, and ends where its encoding ends |
| UserFacts.UserBucketEntryRoundTrip | user.go:125-173 | an encoded version-9 entry, whose bucket has neither, decodes to itself and ends where its encoding ends |

## Left out

- Logging (`log.Println` for entries below version 7) is not modelled; it has no effect on the result.
- The raw-object alternative of `RGWObjSelect` (`IsRaw`, `RawObj`) is left out: nothing sets it.
- Error values are modelled by kind (`OldVersion`, `Past`, `NotCompat`), not by message text. The "notcompat" error wraps the string read's error in the source; a failed string read panics first, so only the non-empty case reaches it.
- Panics are failures: a read past the end of the buffer is `Truncated`, and `begin()` on an empty rule table is `NoRules`. A decode that panics does not return at all in the source.
- The source returns the partly decoded value together with the `decodeFinish` error. The model returns only the error.
- The source's offset is a uint32. The model keeps buffers below 2^32 bytes, so offset sums never wrap; a larger buffer is not modelled.
- Decode.DecodeAccessKey: requires a buffer below 2^32 bytes, for the same reason.
- The sort algorithm (`sort.Slice`) is specified by its result (strictly increasing, the same keys), not modelled step by step.
- `backward` and `forward` take a `*rulePair` and update it in place; here they return the new position, and the caller assigns it.
- `ObjIterator.manifest` is a `*RGWObjManifest` that is only read through; here it is the decoded manifest as a value. `RGWObjManifest` keeps its two iterators as fields; here they are two separate objects. Aliasing between the two is therefore not modelled.
- `ObjIterator`'s methods are proved by reading the fields into a value, running the source's statements on it, and storing the fields back. The statement order on the fields themselves is kept, but the update is not field by field.
- Manifests.ObjManifest.RadosObjectsKeys: requires that iteration reaches the end iterator's offset, because otherwise the source's loop never ends (IterationFacts.HeadThenPartsStalls shows such a manifest).
- IterationFacts.SeekParted, IterationFacts.SeekUnparted, IterationFacts.IterateWithinPart, IterationFacts.IterateAcrossParts: state positions only where the uint64, uint32 and int32 arithmetic does not wrap. The functions they are about compute the wrapped values on every input.
- IterationFacts.StripedKeys: counts keys only for plain striped objects (one rule at the head size, without parts). Key counts for multipart manifests are not stated.
- Codec.PoolRoundTrip, Codec.ObjKeyRoundTrip, Codec.ManifestRuleRoundTrip, Codec.PlacementRuleRoundTrip: each round trip is proved for the newest version the decoder reads, with encoders written for these proofs. Older layouts are covered by the version theorems, not by round trips.
- UserFacts.UserBucketRoundTrip, UserFacts.UserBucketEntryRoundTrip: proved at version 9, for buckets without placement id or explicit placement. The decoder drops the placement id, so such a bucket cannot come back whole.
- Iteration.NextPart, Iteration.NextPartStart: their own contracts state only that the offset is kept. What a part step does is stated by IterationFacts.IterateAcrossParts.
- Iteration.BeginState, Iteration.EndState: their own contracts state only the offset. IterationFacts.BeginWithHead and IterationFacts.BeginWithoutHead state more about the begin iterator of a striped object.
- The Go test file (decode_test.go) compares against fixtures of the Ceph encoder; those fixtures are not part of this model.
