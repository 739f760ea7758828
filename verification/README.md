# Verified model of tag-highlight

This project models the core of the tag-highlight Neovim client in Dafny and proves what that core is for.
`dafny verify dfyconfig.toml` checks all of it.

| files | what they model |
|---|---|
| `Mpack`, `Reading`, `Codec`, `Reader`, `Bits` | the MessagePack encoder, the first-byte table, the recursive reader, and their agreement |
| `Wire` | the bytes themselves, in numbers |
| `Format`, `FormatMeaning`, `Compiler` | the format language of `mpack_encode_fmt`: its two passes, the tree a format denotes, and the two loops over arrays and stacks |
| `Requests`, `GenericCalls`, `Batch`, `AddedCalls` | requests built with it, the growing call arrays, and `nvim_call_atomic` |
| `ApiCalls` | every value character and every call the program makes, with its request written out |
| `LinkedList`, `LineMirror` | the doubly linked list as pointer surgery, and the mirror of a buffer's lines |
| `WaitQueue`, `Delivery` | callers waiting for responses and the threads that deliver them, in every interleaving, and when turns bring delivery |
| `TagOrder`, `TagPipeline`, `NameLists`, `Commands`, `Update` | sharing the tag search out over threads, merging it, one highlighting command per kind, and a whole update |
| `TagLaw` | which tags a buffer gets, said of the fields of the tag lines |
| `Tokens`, `Lines`, `CStrings`, `Strip`, `StripMeaning` | the text scanners |
| `WordLaw`, `StripLaw` | words, directives, comments and escapes, said of the characters of the text |
| `DirCounts`, `TopDirs` | project directories shared between buffers, over whole runs and in place |
| `Wrappers` | options and results |

Code that updates things in place is modelled by classes, arrays and loops, each proved against a function of
its inputs or of the old state; the theorems are about those functions. Where such a function makes the choice that
matters, as in the bytes, the arguments' types, the tag filter, the commands and the directives, a law states the choice
once more in numbers, characters and quantifiers.

The formats follow the MessagePack specification, section "Formats" (int, str, array and map format families),
and requests follow the MessagePack-RPC specification, section "Request Message".

## Where the code and its intent differ

The model follows the code. For each difference the exact condition and an input are proved.

- The reader's one-byte signed form never uses the byte it reads, so -127..-33 come back as -256
  (`Codec.LostExactlyWithInt8`, `Codec.Int8Example`).
- The reader takes the two- and four-byte signed forms as negative whatever their digits are (`Wire.SignedRead`,
  `Wire.WideSignedRead`); the encoder writes only negative numbers in them.
- The line mirror drops a single empty line at the top of a mirror of at most one line, also when the line it
  replaces is not empty (`LineMirror.RunFollowedIffFaithful`, `LineMirror.ClearedLineIsMissed`).
- The tokeniser computes the last token's length from a null pointer when the text ends inside a word
  (`Tokens.DoTokenize`, `Tokens.EndsInWordExample`); the texts it is given never do (`Update.TextIsFitForTokens`).
- A tag of kind 0 with an empty name equals the sentinel of the duplicate removal and is lost
  (`TagPipeline.RemoveDuplicateTags`, `TagPipeline.NoTagIsFoundAndLost`).
- The reference count of a project directory has 16 bits, so a directory shared by 65537 buffers is released too
  early (`DirCounts.RunIsValidIff`, `DirCounts.TooManyUsers`).
- The character behind a closing quote or comment mark is kept without being looked at, so a literal or comment that
  directly follows another is misread (`StripMeaning.LineIsKeptIffSeparated`, `StripMeaning.AdjacentLiteralsExample`).
- The list's assertions let an empty slice pass, whose first element is then written to an array of length zero
  (`LinkedList.EmptySliceIff`, `LinkedList.SliceExamples`); no caller in the line mirror passes one.
- When no tag is found, ctags is run again with the language forced, but the second attempt begins with one more normal
  run, whose output replaces the forced one; so the forced run counts only if that last run gives nothing
  (`Update.ForcedMattersIff`, `Update.ForcedLineExample`).
- A responder may be passed by for ever by another that keeps taking its node and putting it back; its turns bring
  delivery exactly when it has its own node or no rival (`Delivery.DeliveryIsCertainIff`,
  `Delivery.FairTurnsMayNeverDeliver`).
- `nvim_set_var` puts the variable's name and its value into one list, so its request has one parameter,
  not two (`ApiCalls.SetVariableCall`).
- A name with a separator inside cannot be told from several names in a command (`Commands.NamesCanBeReadBackIff`,
  `Commands.BlankNameIsWantedAndAmbiguous`).

Two more observations: the format compiler's comment asks braces for an even number of elements, and an odd number is a
fault in the model, as the code's assertion makes it; and opening and closing brackets are never compared, so `[}` is
accepted.

## Assumptions

- A request is answered at most once and only after it was written, and fewer than 2^32 requests are under way
  when another one starts. Queue operations and the store with its wake-up are single atomic steps.
- The variadic arguments are those the format asks for; where they are not, which is undefined in C, the model has
  the fault `BadArgument`. An unsigned number passed under `d` is the int with its bits. An assertion that fails is a fault too.
- Line events lie inside the editor's buffer, as Neovim promises.
- A string's length fits its 32-bit field. The batch's format has fewer than 2^32 - 1 characters.
- `isalpha`, `isalnum`, `isblank` and the caseless comparison are those of the C locale.
- `b_memsep` cuts a string at the first separator, `b_fromblk` copies, `b_refblk` with its flag set refers to a
  NUL-terminated block, `b_iseq` compares contents. Their sources are not part of this model.
- `qsort` returns a sorted permutation; there is only one (`TagOrder.SortedIsUnique`), so the model's own sort stands
  for it.
- A tag line with fewer than four fields leaves at most one field for kind and language, so it is never accepted,
  whatever byte the scan for the third tab starts at.
- File descriptor 0 is replaced by 1 for a response; every wait node waits on 1.

## Model

| member | source | states |
|---|---|---|
| `Reading.RowsAreDisjoint` | tag-highlight/src/mpack/data.c:3-38 | for every first byte, a row of the table matches it if and only if it is the one row that the byte ranges name, so the order of the scan does not matter |
| `Reading.FixedRow` | tag-highlight/src/mpack/decode.c:521-538 | a fixed row matches exactly one contiguous range of bytes, and xor with its mask leaves the distance into that range |
| `Reading.IdPackType` | tag-highlight/src/mpack/decode.c:521-538 | the linear scan ends with exactly the row of the byte's range, or with none when no row matches |
| `Mpack.Packer.EncodeArray` | tag-highlight/src/mpack/encode.c:112-141 | appends the array header of the narrowest form the code chooses and nothing else; refuses exactly the length 2^32 - 1 |
| `Mpack.Packer.EncodeDictionary` | tag-highlight/src/mpack/encode.c:143-175 | the same for maps |
| `Mpack.Packer.EncodeInteger` | tag-highlight/src/mpack/encode.c:177-226 | appends the signed form, or the unsigned one for non-negative numbers |
| `Mpack.Packer.EncodeUnsigned` | tag-highlight/src/mpack/encode.c:228-255 | appends the unsigned form |
| `Mpack.Packer.EncodeString` | tag-highlight/src/mpack/encode.c:257-287 | appends header and bytes; a null string is written as the empty one |
| `Bits.BigEndianRoundTrip` | tag-highlight/src/mpack/decode.c:622-634 | big-endian digits of any width are read back as the number modulo that width |
| `Bits.OrOfDisjoint` | tag-highlight/src/mpack/decode.c:308-355 | or-ing a multiple of a power of two with a smaller number is addition |
| `Codec.SignBits` | tag-highlight/src/mpack/decode.c:308-355 | or-ing the sign bits above the digits of a negative number restores it, for the 5, 16 and 32 bit forms |
| `Codec.UnsignedRoundTrip` | tag-highlight/src/mpack/encode.c:228-255 | for every 64-bit unsigned number the chosen width suffices: it is read back, and the rest of the input is untouched |
| `Codec.NegativeRoundTrip` | tag-highlight/src/mpack/encode.c:177-226 | every negative 64-bit number is read back, except that -127..-33 come back as -256 |
| `Codec.DigitIsLost` | tag-highlight/src/mpack/decode.c:319-324 | the one-byte signed form is read as -256 whatever its digit is |
| `Codec.Int8Example` | tag-highlight/src/mpack/decode.c:319-324 | -100 comes back as -256 |
| `Codec.LostExactlyWithInt8` | tag-highlight/src/mpack/decode.c:308-355 | a tree is received unchanged, up to the tag of non-negative integers, if and only if no integer in it takes the one-byte signed form |
| `Codec.StringRoundTrip` | tag-highlight/src/mpack/decode.c:261-305 | every byte string is read back with the rest untouched |
| `Codec.RoundTrip` | tag-highlight/src/mpack/decode.c:144-305 | for every tree within the header limits and any bytes behind it, decoding its encoding gives the tree as received and leaves exactly those bytes |
| `Codec.RoundTripAll` | tag-highlight/src/mpack/decode.c:172-211 | the same for consecutive elements of an array |
| `Codec.RoundTripEntries` | tag-highlight/src/mpack/decode.c:214-258 | the same for key and value pairs |
| `Codec.StreamRoundTrip` | tag-highlight/src/event_loop.c:495-499 | a buffer of whole messages is read message by message into exactly those messages |
| `Codec.DecodeIsLocal` | tag-highlight/src/mpack/decode.c:144-305 | what follows an object that is read never changes how it is read |
| `Codec.FaultIsLocal` | tag-highlight/src/mpack/decode.c:144-305 | nor does it undo a fault, except that of a buffer that is too short |
| `Codec.PrefixFree` | tag-highlight/src/mpack/decode.c:144-305 | no encoding is a proper prefix of another |
| `Wire.BigEndianDigit` | tag-highlight/src/mpack/encode.c:27-56 | byte i of n is v / 256^(n - 1 - i) % 256: the most significant byte is written first |
| `Wire.FromBigEndianDigit` | tag-highlight/src/mpack/decode.c:49-51 | byte i of n is read as the digit of weight 256^(n - 1 - i) |
| `Wire.NilAndBoolsWritten` | tag-highlight/src/mpack/encode.c:289-315 | nil is C0, false C2, true C3 |
| `Wire.UnsignedWritten` | tag-highlight/src/mpack/encode.c:228-255 | for every 64-bit unsigned number the bytes in hexadecimal: first byte and digits of each width, and which width |
| `Wire.SignedWritten` | tag-highlight/src/mpack/encode.c:177-226 | the same for signed numbers: as the unsigned one from 0 on, otherwise two's complement in one, two, four or eight bytes |
| `Wire.StringHeaderWritten` | tag-highlight/src/mpack/encode.c:257-287 | a string's header in hexadecimal by its length |
| `Wire.ArrayHeaderWritten` | tag-highlight/src/mpack/encode.c:112-141 | an array's header in hexadecimal by its length |
| `Wire.MapHeaderWritten` | tag-highlight/src/mpack/encode.c:143-175 | a map's header in hexadecimal by its length |
| `Wire.CompoundsWritten` | tag-highlight/src/mpack/encode.c:112-287 | strings, arrays and maps are header and contents |
| `Wire.ElementsWritten` | tag-highlight/src/mpack/mpack.c:555-633 | elements in order, and every key before its value |
| `Wire.NilAndBoolsRead` | tag-highlight/src/mpack/decode.c:485-517 | C0, C2 and C3 are read as nil, false and true |
| `Wire.UnsignedRead` | tag-highlight/src/mpack/decode.c:357-400 | CC a is read as a, and CD a b as 256 a + b; a byte below 80 is itself |
| `Wire.WideUnsignedRead` | tag-highlight/src/mpack/decode.c:357-400 | CE and four bytes are read most significant first |
| `Wire.LongUnsignedRead` | tag-highlight/src/mpack/decode.c:357-400 | CF and eight bytes are read most significant first |
| `Wire.SignedRead` | tag-highlight/src/mpack/decode.c:308-355 | a byte from E0 on is itself less 256, D0 a is -256 whatever a is, D1 a b is a 16-bit number as the code extends it |
| `Wire.WideSignedRead` | tag-highlight/src/mpack/decode.c:308-355 | D2 and four bytes as the code extends them |
| `Wire.WidestSignedRead` | tag-highlight/src/mpack/decode.c:308-355 | D3 and eight bytes in two's complement |
| `Wire.ShortSizesRead` | tag-highlight/src/mpack/decode.c:172-305 | a string's, array's or map's short size is what its first byte has above A0, 90 or 80 |
| `Wire.SizesRead` | tag-highlight/src/mpack/decode.c:172-305 | a size of one or two bytes behind D9 to DE |
| `Wire.WideSizesRead` | tag-highlight/src/mpack/decode.c:172-305 | a size of four bytes behind DB, DD or DF |
| `Wire.FixedExtensionRead` | tag-highlight/src/mpack/decode.c:403-480 | D4 to D7 are followed by a tag and one, two, four or eight bytes |
| `Wire.ExtensionRead` | tag-highlight/src/mpack/decode.c:403-480 | C7 is followed by a length, a tag and so many bytes |
| `Wire.FaultsRead` | tag-highlight/src/mpack/decode.c:144-169 | which first bytes are faults whatever follows |
| `Mpack.EncodeAllConcat` | tag-highlight/src/mpack/encode.c:112-315 | encodings of consecutive objects are concatenated |
| `Reader.Reader.DoDecode` | tag-highlight/src/mpack/decode.c:144-169 | the mutually recursive reader that advances its buffer in place returns what the specification returns and leaves its rest, faults included |
| `Reader.Reader.FillArray` | tag-highlight/src/mpack/decode.c:172-211 | the element loop reads exactly as many objects as the header says |
| `Reader.Reader.FillDictionary` | tag-highlight/src/mpack/decode.c:214-258 | the entry loop reads as many entries as the header says, each any object as key and then any object as value |
| `Reader.Reader.DecodeInteger` | tag-highlight/src/mpack/decode.c:308-355 | signed forms by width, with the one-byte form as the code has it |
| `Reader.Reader.DecodeUnsigned` | tag-highlight/src/mpack/decode.c:357-400 | unsigned forms by width |
| `Reader.Reader.DecodeString` | tag-highlight/src/mpack/decode.c:261-305 | string forms by header |
| `Reader.Reader.ReadMessages` | tag-highlight/src/event_loop.c:495-499 | the callback empties the buffer message by message or stops at a fault |
| `FormatMeaning.PassOneShow` | tag-highlight/src/mpack/mpack.c:479-525 | on the print of a balanced tree the counting pass stores the top-level count and then the count of every bracket in opening order |
| `FormatMeaning.CountShow` | tag-highlight/src/mpack/mpack.c:479-511 | the same from inside any state, with any text behind |
| `FormatMeaning.AcceptedIffTree` | tag-highlight/src/mpack/mpack.c:479-521 | the counting pass accepts a string if and only if it is the print of a balanced tree with at most one top-level value |
| `FormatMeaning.TreeOf` | tag-highlight/src/mpack/mpack.c:479-521 | every accepted string can be parsed into such a tree |
| `FormatMeaning.SplitItems` | tag-highlight/src/mpack/mpack.c:479-511 | a string that comes back to its bracket level splits into a balanced tree and a rest that is empty or begins with a closing bracket |
| `FormatMeaning.EmitShow` | tag-highlight/src/mpack/mpack.c:555-673 | the n-th bracket opened in the emitting pass reads the count stored for the n-th bracket, so that the pass emits the encoding of the denoted objects and leaves the argument source where the denotation leaves it |
| `FormatMeaning.CompileShow` | tag-highlight/src/mpack/mpack.c:455-677 | for every balanced format and every argument list both passes together yield the same fault, no pack, or exactly the encoding of the denoted tree |
| `FormatMeaning.DenoteEncodable` | tag-highlight/src/mpack/mpack.c:455-677 | what a format denotes never exceeds the header limits |
| `FormatMeaning.CompiledFormatDecodes` | tag-highlight/src/mpack/mpack.c:455-677 | whenever a string compiles to bytes, the reader takes exactly those bytes and returns the tree the string denotes |
| `Mpack.EncodePaired` | tag-highlight/src/mpack/mpack.c:615-624 | a map is written as its keys and values in turn, which is what the emitting pass does for braces |
| `ApiCalls.AlphabetIff` | tag-highlight/src/mpack/mpack.c:479-521 | a string is refused for its characters if and only if some character is outside the written-out alphabet and nothing before it is refused |
| `ApiCalls.BooleanSent` | tag-highlight/src/mpack/mpack.c:557-562 | b and B send an int as C3 if it is not 0 and as C2 if it is, and a stored bool as C3 or C2, from a plain list, behind "!" and behind "@" |
| `ApiCalls.IntSent` | tag-highlight/src/mpack/mpack.c:564-569 | d and D send an int as itself and a stored 64-bit number as the one 32-bit int congruent to it modulo 2^32, from all three sources |
| `ApiCalls.LongSent` | tag-highlight/src/mpack/mpack.c:571-576 | l and L send a 64-bit number as itself, from all three sources |
| `ApiCalls.UnsignedSent` | tag-highlight/src/mpack/mpack.c:578-583 | u and U send a 64-bit unsigned number as itself, from all three sources |
| `ApiCalls.StringSent` | tag-highlight/src/mpack/mpack.c:585-590 | s and S send a string, from all three sources |
| `ApiCalls.NullStringSent` | tag-highlight/src/mpack/mpack.c:585-590 | a null string is sent as A0, the empty one |
| `ApiCalls.CharactersSent` | tag-highlight/src/mpack/mpack.c:592-598 | c and C send the characters of a C string, from all three sources |
| `ApiCalls.NilSent` | tag-highlight/src/mpack/mpack.c:600-603 | n and N send C0 and take no argument: the next value gets the one that stands there |
| `Compiler.Cursor.Next` | tag-highlight/src/mpack/mpack.c:381-400 | the three argument sources offer the specified argument and advance by one |
| `Compiler.Cursor.Mark` | tag-highlight/src/mpack/mpack.c:634-654 | the switches change the source as specified or fail |
| `Compiler.CountPass` | tag-highlight/src/mpack/mpack.c:479-521 | the counting loop over its arrays, with every index in range, computes the counts of the specification |
| `Compiler.EmitStepInPlace` | tag-highlight/src/mpack/mpack.c:555-673 | one turn of the emitting loop: output, source and positions move together |
| `Compiler.StepTogether` | tag-highlight/src/mpack/mpack.c:534-546 | the emitting pass stays in step with the counting pass, so the next opening always has a stored count and a closing never pops an empty stack |
| `Compiler.CountsBound` | tag-highlight/src/mpack/mpack.c:479-511 | no stored count exceeds the length of the string, so no counter wraps |
| `Compiler.MpackEncodeFmt` | tag-highlight/src/mpack/mpack.c:455-677 | for every format with fewer openings than the count array has slots and nesting at most 127, the two loops over arrays and stacks index in range and return what the specification compiles |
| `Requests.GenericCall` | tag-highlight/src/nvim_api/common.c:66-88 | for every well-formed parameter format the request is [0, id, name, [parameters]], with the parameters denoted by the format over the caller's list |
| `Requests.GenericCallWithoutParameters` | tag-highlight/src/nvim_api/common.c:84-86 | without a format the parameter list is empty |
| `ApiCalls.ReadsFlat` | tag-highlight/src/mpack/mpack.c:555-673 | a bracket-free piece of a format takes its arguments in order, one for each value character, and leaves the rest |
| `ApiCalls.StringCall` | tag-highlight/src/nvim_api/api.c:203-203 | "s" sends one string: [0, id, name, [s]]; the request is written out in this row and the next ones, for all arguments |
| `ApiCalls.BufferCall` | tag-highlight/src/nvim_api/api.c:134-134 | "d" sends one number |
| `ApiCalls.LinesCall` | tag-highlight/src/nvim_api/api.c:144-144 | "d,d,d,d" sends four numbers in order |
| `ApiCalls.BufferStringCall` | tag-highlight/src/nvim_api/api.c:167-167 | "d,s" sends a number and a string |
| `ApiCalls.TwoStringsCall` | tag-highlight/src/nvim_api/api.c:291-291 | "s,s" sends two strings in order |
| `ApiCalls.StringFlagCall` | tag-highlight/src/nvim_api/api.c:223-223 | "sB" sends a string and a bool |
| `ApiCalls.NumberFlagCall` | tag-highlight/src/nvim_api/api.c:350-350 | "dB" sends a number and a bool |
| `ApiCalls.ClearCall` | tag-highlight/src/nvim_api/api.c:322-322 | "dd,dd" sends four numbers in order |
| `ApiCalls.HighlightCall` | tag-highlight/src/nvim_api/api.c:309-310 | "dd,s,ddd" sends two numbers, the group and three more numbers |
| `ApiCalls.AttachCall` | tag-highlight/src/nvim_api/api.c:372-379 | "d,B,[]" sends the buffer, the bool and an empty list |
| `ApiCalls.AttachBytes` | tag-highlight/src/nvim_api/api.c:377-377 | for small buffer numbers n its parameters are 93 n C2 90, or C3 for true |
| `ApiCalls.FunctionCall` | tag-highlight/src/nvim_api/api.c:239-239 | "s,[]" sends the function's name and an empty list |
| `ApiCalls.FormattedFunctionCall` | tag-highlight/src/nvim_api/api.c:81-95 | "s,[!fmt]" sends the function's name and the list of what the caller's format reads from the caller's own arguments |
| `ApiCalls.SetVariableCall` | tag-highlight/src/nvim_api/api.c:271-283 | "[s,!fmt]" sends the name and the values in one list, so as one parameter |
| `ApiCalls.ClientCall` | tag-highlight/src/nvim_api/api.c:392-397 | the client's name, the dictionary of its version with three keys, its type and two empty dictionaries |
| `ApiCalls.BareCall` | tag-highlight/src/nvim_api/api.c:110-110 | without a format the request is [0, id, name, []] |
| `GenericCalls.FitsIff` | tag-highlight/src/mpack/mpack.c:455-478 | a format fits the arrays if and only if it has fewer than 128 openings, and six more for every call hinted at, and fewer than 128 levels |
| `GenericCalls.GenericFitsIff` | tag-highlight/src/nvim_api/common.c:74-83 | the generic call stays inside the compiler's arrays and stacks if and only if the caller's format has at most 125 openings and is nested at most 125 deep |
| `GenericCalls.MakeGenericCall` | tag-highlight/src/nvim_api/common.c:66-89 | within these bounds the array-level compiler gives the specified bytes of the generic call |
| `Requests.OwnSlotOnly` | tag-highlight/src/mpack/mpack.c:639-651 | a format without switches draws left to right from its own argument array; no other array influences its values or faults |
| `Requests.AtomicShown` | tag-highlight/src/nvim_api/api.c:410-419 | the string grown call by call is the print of one balanced tree |
| `Requests.CallItemsDenoted` | tag-highlight/src/mpack/mpack.c:639-651 | the k-th call of a batch takes its placeholders from the k-th argument array and from no other |
| `Requests.AtomicCall` | tag-highlight/src/nvim_api/api.c:404-428 | for every list of calls the bytes are the encoding of [0, id, "nvim_call_atomic", [[call 0 .. call n-1]]], each call over its own arguments; a faulting call is the fault of the batch |
| `Batch.AtomicFits` | tag-highlight/src/nvim_api/api.c:414-424 | whatever the number of calls, the batch's format stays inside the compiler's arrays and stacks |
| `Batch.ModestCalls` | tag-highlight/src/lang/lang.c:59-93 | the three formats that are ever added have few, balanced brackets |
| `Batch.ArgArray.Reserve` | tag-highlight/src/lang/lang.c:41-45 | doubling the arrays keeps what they hold |
| `Batch.ArgArray.AddHlCall` | tag-highlight/src/lang/lang.c:33-68 | appends one format and one argument array |
| `Batch.ArgArray.AddClrCall` | tag-highlight/src/lang/lang.c:70-102 | appends one format and one argument array |
| `Batch.ArgArray.AddCmdCall` | tag-highlight/src/update.c:299-322 | appends one format and one argument array |
| `Batch.HlCallDenoted` | tag-highlight/src/lang/lang.c:47-61 | a highlight call means its name with buffer and id as given, the group, and line, start and end as 32-bit ints, in this order |
| `Batch.ClrCallDenoted` | tag-highlight/src/lang/lang.c:84-95 | a clear call means its name with its four numbers as given, in order |
| `Format.ToInt32` | tag-highlight/src/mpack/mpack.c:564-569 | the 32-bit int congruent to a 64-bit number modulo 2^32, and the number itself if it fits |
| `Batch.CmdCallDenoted` | tag-highlight/src/update.c:315-318 | a command call means its name with the one command |
| `Batch.FlatCallShown` | tag-highlight/src/lang/lang.c:59-93 | every bracket-free parameter list makes a balanced call format |
| `Batch.NvimCallAtomic` | tag-highlight/src/nvim_api/api.c:404-424 | the loop over the arrays compiles exactly the specified format with the arrays behind one argument |
| `AddedCalls.BatchOfCalls` | tag-highlight/src/nvim_api/api.c:404-428 | any mix of highlight, clear and command calls compiles to the encoding of [0, id, "nvim_call_atomic", [[calls]]], ids and line numbers of 32 bits as given, which the peer reads as that request |
| `AddedCalls.SendCalls` | tag-highlight/src/lang/lang.c:22-102 | the same from the arrays: calls added one after another and sent as one batch |
| `AddedCalls.OneCallDenoted` | tag-highlight/src/lang/lang.c:47-95 | each of the three calls means its name and its parameters in order |
| `Batch.CommandBatchDecodes` | tag-highlight/src/nvim_api/api.c:404-428 | end to end: the peer decodes a batch of commands to the request with exactly those commands in order, whatever their bytes and whatever the id; the id is received as every integer is |
| `LinkedList.LinkedList.Prepend` | tag-highlight/src/util/linked_list.c:45-62 | the new element is first; links, head, tail and length stay right |
| `LinkedList.LinkedList.Append` | tag-highlight/src/util/linked_list.c:65-84 | the new element is last; links, head, tail and length stay right |
| `LinkedList.LinkedList.InsertAfter` | tag-highlight/src/util/linked_list.c:88-114 | the element stands right after the given node |
| `LinkedList.LinkedList.InsertBefore` | tag-highlight/src/util/linked_list.c:117-143 | the element stands right before the given node |
| `LinkedList.LinkedList.CreateNodes` | tag-highlight/src/util/linked_list.c:149-166 | a detached chain of nodes that carries the given elements in order |
| `LinkedList.LinkedList.InsertBlistAfter` | tag-highlight/src/util/linked_list.c:169-209 | a slice of a string list, by resolved indices, is spliced in after the node; a slice the assertions refuse, and an empty one, which would be written past an array of length zero, is a fault |
| `LinkedList.LinkedList.InsertBlistBefore` | tag-highlight/src/util/linked_list.c:212-252 | the same before the node |
| `LinkedList.EmptySliceIff` | tag-highlight/src/util/linked_list.c:12-18 | the slices that pass the assertions and fault are exactly those that begin where they end |
| `LinkedList.SliceIsInsertedIff` | tag-highlight/src/util/linked_list.c:12-18 | a slice is inserted if and only if both bounds stand for positions inside, directly or counted from one past the end, the first before the second |
| `LinkedList.SliceExamples` | tag-highlight/src/util/linked_list.c:12-18 | one such slice, one that is inserted and one that is refused |
| `LinkedList.LinkedList.Spliced` | tag-highlight/src/util/linked_list.c:169-252 | three chains that point at each other where they meet form one well-formed list of the concatenated elements |
| `LinkedList.LinkedList.DeleteNode` | tag-highlight/src/util/linked_list.c:359-384 | removes exactly the node's element |
| `LinkedList.LinkedList.DeleteRange` | tag-highlight/src/util/linked_list.c:255-296 | removes the elements from the node on, as many as asked for or as there are |
| `LinkedList.LinkedList.At` | tag-highlight/src/util/linked_list.c:299-340 | the node of the index from whichever end is nearer, the tail for -1 and for the length, none outside |
| `LinkedList.LinkedList.Pop` | tag-highlight/src/util/linked_list.c:387-408 | takes the last element but leaves the length field as it was |
| `LinkedList.LinkedList.VerifySize` | tag-highlight/src/util/linked_list.c:435-449 | counts the nodes, repairs the length and reports whether it was right |
| `LinkedList.JoinBstrings` | tag-highlight/src/util/linked_list.c:452-476 | every element in order, each followed by the separator if there is one |
| `LineMirror.MirrorIsEditedIffFaithful` | tag-highlight/src/event_handlers.c:268-274 | for every event inside the buffer the mirror equals the editor's splice, normalised to one empty line, if and only if the event is not a harmful instance of the "useless update" drop |
| `LineMirror.EditedLineByLine` | tag-highlight/src/event_handlers.c:262-298 | the editor's splice line by line: which line stands where afterwards, and one empty line where none is left |
| `LineMirror.ClearedLineIsMissed` | tag-highlight/src/event_handlers.c:268-274 | a concrete harmful drop: clearing a one-line buffer leaves the old text in the mirror |
| `LineMirror.RunFollowedIffFaithful` | tag-highlight/src/event_handlers.c:237-300 | over every run of events the mirror agrees after each of them if and only if no event is a harmful drop |
| `LineMirror.Buffer.HandleLineEvent` | tag-highlight/src/event_handlers.c:237-300 | the in-place handler leaves a well-formed list with exactly the mirrored lines |
| `LineMirror.Buffer.HandleRun` | tag-highlight/src/event_handlers.c:136-149 | update after update in place: the list stays well formed and holds the mirrored lines, which after a run without harmful drops are the editor's own; only a continuation flag ends the run |
| `LineMirror.FaithfulRunIsMirrored` | tag-highlight/src/event_handlers.c:237-300 | in a run without harmful drops the editor's events always lie inside the mirror |
| `LineMirror.Buffer.UpdateLines` | tag-highlight/src/event_handlers.c:262-290 | one event's branches: a drop leaves the list alone, everything else is one splice |
| `LineMirror.Buffer.LineEventMultiOp` | tag-highlight/src/event_handlers.c:322-358 | replacing, deleting the surplus and inserting the rest together are one splice |
| `LineMirror.Buffer.ReplaceLine` | tag-highlight/src/event_handlers.c:303-311 | replaces one element in place |
| `LineMirror.Buffer.InsertAtTop` | tag-highlight/src/event_handlers.c:276-279 | lines inserted above the first one are one splice at 0 |
| `LineMirror.Buffer.DeleteLines` | tag-highlight/src/event_handlers.c:287-290 | deleted lines are one splice by nothing |
| `LineMirror.Buffer.GetInitialLines` | tag-highlight/src/buffer.c:268-280 | the initial fill puts the editor's lines in place of a single line; no lines at all fail an assertion |
| `WaitQueue.HandleNvimResponse` | tag-highlight/src/event_handlers.c:162-188 | a responder alone, with its first match at position k, pops k + 1 times, wakes that node and no other, and leaves queue[k+1..] + queue[..k] |
| `WaitQueue.StepKeepsInv` | tag-highlight/src/nvim_api/common.c:127-156 | every step of a caller or a responder keeps: registered unanswered nodes are in the queue once or in one responder's hands, ids of requests under way differ, finished responders delivered to their own caller |
| `WaitQueue.RunKeepsInv` | tag-highlight/src/nvim_api/common.c:115-156 | the same over every run |
| `WaitQueue.DeliversToOwnCaller` | tag-highlight/src/event_handlers.c:176-178 | equal ids mean the same request, so a delivery always reaches the caller it answers, although responders only compare ids that wrap at 2^32 |
| `WaitQueue.IdsAreEqualIff` | tag-highlight/src/nvim_api/misc.c:34-46 | ids of two requests are equal if and only if a multiple of 2^32 requests lies between them |
| `WaitQueue.LiveIdsDiffer` | tag-highlight/src/nvim_api/misc.c:34-46 | requests under way have different ids |
| `WaitQueue.EveryInterleavingIsSafe` | tag-highlight/src/event_handlers.c:162-188 | in every interleaving a caller that got an object got the payload of the response to its own request, and its node is in the queue and in hands exactly once in total while it waits and not at all otherwise |
| `WaitQueue.AnswersAreFinal` | tag-highlight/src/nvim_api/common.c:115-124 | an answer once deposited never changes in any continuation |
| `WaitQueue.SomeResponderCanMove` | tag-highlight/src/event_handlers.c:171-184 | while an arrived response is undelivered and its caller waits, some responder can move |
| `WaitQueue.AloneDelivers` | tag-highlight/src/event_handlers.c:171-187 | from every reachable state a responder that moves alone delivers after k + 1 pops, leaving the queue rotated |
| `Delivery.DeliveryIsCertainIff` | tag-highlight/src/event_handlers.c:171-184 | in every reachable state some number of turns of a responder brings delivery in every run without further arrivals if and only if it has its own node in hand or every other responder is finished or has its own |
| `Delivery.EnoughTurnsDeliver` | tag-highlight/src/event_handlers.c:171-187 | how many: one with its own node, otherwise two for every node up to its own and one more to put another back, whatever callers and the other responders do meanwhile |
| `Delivery.RivalsMayNeverDeliver` | tag-highlight/src/event_handlers.c:171-184 | with any other responder there are runs in which both take as many turns as one likes and the caller still waits |
| `Delivery.FairTurnsMayNeverDeliver` | tag-highlight/src/event_handlers.c:171-184 | such a state and such a round, which leads back to the same state |
| `Delivery.DeliveryStaysPossible` | tag-highlight/src/event_handlers.c:171-187 | from every reachable state an arrived response can still be delivered to its waiting caller |
| `WaitQueue.QuietQueue` | tag-highlight/src/event_handlers.c:171-187 | once all responders are finished, only unanswered requests are queued |
| `TagOrder.TagCmpIsTotalOrder` | tag-highlight/src/lang/ctags_scan/scan.c:58-75 | tag_cmp is a total order whose only ties are equal tags |
| `TagOrder.ComesFirstIff` | tag-highlight/src/lang/ctags_scan/scan.c:58-75 | the smaller kind first, then the shorter name, then the name with the smaller character where the two first differ |
| `TagOrder.SortedIsUnique` | tag-highlight/src/lang/ctags_scan/scan.c:306-306 | a sorted list is determined by its elements and their multiplicities, so any sort gives the same list |
| `TagOrder.IncreasingIsUnique` | tag-highlight/src/lang/ctags_scan/scan.c:78-101 | a strictly increasing list is determined by the set of its elements |
| `TagPipeline.FieldsOfTabbed` | tag-highlight/src/lang/ctags_scan/scan.c:458-474 | cutting a line at tabs undoes joining fields with tabs |
| `TagPipeline.InspectLine` | tag-highlight/src/lang/ctags_scan/scan.c:442-499 | one line contributes its tag exactly when it passes the filter |
| `TagPipeline.ReadKind` | tag-highlight/src/lang/ctags_scan/scan.c:465-474 | the kind is the last one-character field and the language follows the last "language:" prefix |
| `TagPipeline.DoTokSearch` | tag-highlight/src/lang/ctags_scan/scan.c:430-538 | a thread returns the accepted tags of its chunk in order, or nothing at all for an empty chunk |
| `TagPipeline.ChunksPartition` | tag-highlight/src/lang/ctags_scan/scan.c:231-247 | the chunks follow each other from the first line to the last without gap or overlap, for every number of threads |
| `TagPipeline.LaunchThreads` | tag-highlight/src/lang/ctags_scan/scan.c:211-268 | in whatever order the threads finish and fill their slots, the slots gathered in thread order are the sequential result |
| `TagPipeline.JoinThreads` | tag-highlight/src/lang/ctags_scan/scan.c:273-280 | the size is that of all results together |
| `TagPipeline.CombineData` | tag-highlight/src/lang/ctags_scan/scan.c:286-312 | merged, sorted and freed of duplicates: strictly increasing, with the same members but for the tag of kind 0 and empty name |
| `TagPipeline.RemoveDuplicateTags` | tag-highlight/src/lang/ctags_scan/scan.c:78-101 | a sorted list becomes strictly increasing and keeps every member but the tag of kind 0 and empty name, which equals the starting sentinel |
| `TagPipeline.NoTagNeedsNulKind` | tag-highlight/src/lang/ctags_scan/scan.c:106-121 | no line contributes that tag unless an equivalence maps to NUL |
| `TagPipeline.NoTagIsFoundAndLost` | tag-highlight/src/lang/ctags_scan/scan.c:486-498 | with one that does, a nameless line of the buffer's own file is accepted, and the list is empty |
| `TagPipeline.FoundMembers` | tag-highlight/src/lang/ctags_scan/scan.c:430-538 | a tag is found if and only if some line contributes it |
| `TagPipeline.ProcessTags` | tag-highlight/src/lang/ctags_scan/scan.c:183-208 | for every tag list and thread count: nothing if and only if there are no words or no line is accepted, otherwise strictly increasing with exactly the wanted tags |
| `TagLaw.ContributesIff` | tag-highlight/src/lang/ctags_scan/scan.c:430-538 | a line contributes a kind and a name if and only if: four fields or more and no "!" in front; the kind is the first equivalence of the last one-character field behind the pattern, or that field; it is in the order, or NUL; what follows the last "language:" is the buffer's language but for case, or C or C++ in the C family; the name is first and not skipped; the file is the buffer's own or the name is one of its words |
| `TagLaw.ListedIff` | tag-highlight/src/lang/ctags_scan/scan.c:183-208 | a buffer's list has a kind and a name if and only if some line's fields meet these conditions; only the nameless tag of kind NUL is never listed |
| `TagLaw.NothingIff` | tag-highlight/src/lang/ctags_scan/scan.c:183-208 | no line is accepted if and only if no line's fields meet them |
| `TagLaw.OneLineIff` | tag-highlight/src/lang/ctags_scan/scan.c:430-538 | the same for a line of name, file, pattern, one-character kind and language |
| `TagLaw.ReplacedIff` | tag-highlight/src/lang/ctags_scan/scan.c:107-121 | the replaced kind is that of the first matching pair, or the kind itself |
| `TagLaw.CaseIff` | tag-highlight/src/lang/ctags_scan/scan.c:124-136 | equal but for case: the same characters, or the two forms of one letter |
| `TagLaw.TabbedOfFields` | tag-highlight/src/lang/ctags_scan/scan.c:458-474 | every line is its fields joined with tabs |
| `TagPipeline.OneAnswer` | tag-highlight/src/lang/ctags_scan/scan.c:183-208 | there is only one such list, so thread count, order of finishing and sort do not matter |
| `Commands.RunIsAll` | tag-highlight/src/update.c:226-245 | in a sorted list the run that starts at the first tag of a kind is all tags of that kind |
| `Commands.HandleKind` | tag-highlight/src/update.c:198-251 | the whole command, written out: clearing the group, then a match pattern with prefix and suffix, each by default a word's start or end, and with the lists it is not contained in, or keywords if neither is set, over exactly the names of all tags of the kind, and the link |
| `Commands.CommandIsWrittenOut` | tag-highlight/src/update.c:198-251 | that text is the command of every list of names |
| `Commands.AlternativesInOrder` | tag-highlight/src/update.c:229-232 | names are listed in order: a longer list is the shorter ones with the separator between them |
| `Commands.NamesCanBeReadBackIff` | tag-highlight/src/update.c:226-245 | in both forms a command's text tells its names from all other lists of names without separators if and only if no name has the whole separator inside |
| `Commands.SeparatorsAreAmbiguous` | tag-highlight/src/update.c:226-245 | a separator inside a name makes the command that of the name's parts |
| `Commands.BlankNameIsWantedAndAmbiguous` | tag-highlight/src/update.c:240-245 | a function with a blank in its name is a wanted tag of its own file, and its keyword command is that of other names |
| `Commands.CommandsDetermineShown` | tag-highlight/src/update.c:174-186 | with names without separators inside and distinct kinds, equal command lists list the same tags |
| `NameLists.ReadBackIff` | tag-highlight/src/update.c:226-245 | names in one text, each followed by a separator that cannot overlap itself, are determined exactly if none has it inside |
| `Commands.UpdateCommands` | tag-highlight/src/update.c:146-196 | the batch holds "ownsyntax" and one command per kind that occurs, in the order of the kinds |
| `Commands.NamesAreConserved` | tag-highlight/src/update.c:171-186 | with no letter repeated in the order, the pairs listed by all commands are, as a multiset, the tags whose kind is in the order |
| `Commands.EveryTagIsListedOnce` | tag-highlight/src/update.c:171-186 | if the order has every kind that occurs, every tag is listed exactly once |
| `Commands.QueriedTagsAreListedOnce` | tag-highlight/src/update.c:104-115 | the list made for a buffer meets that condition, unless an equivalence maps to NUL |
| `Commands.CommandsReachEditor` | tag-highlight/src/update.c:113-115 | sent as one batch the commands are decoded by the peer in the same order |
| `Update.TextIsFitForTokens` | tag-highlight/src/update.c:104-105 | stripped or joined text is empty or ends in a newline, and has no NUL, so the tokeniser never stops inside a word |
| `Update.WordsOf` | tag-highlight/src/lang/ctags_scan/tok.c:14-25 | the words of the text, read out of the tokeniser's buffer |
| `Update.UpdateOther` | tag-highlight/src/update.c:93-142 | end to end, with three runs of ctags: no batch if and only if neither the lines after the first run nor those after a forced and a further normal run hold one that is accepted for the words of the text, otherwise the batch that highlights exactly the wanted tags of the attempt that succeeded |
| `Update.TagFile.UpdateTaglist` | tag-highlight/src/ctags.c:130-184 | a run's terminated output lines replace the tag lines, unless it gives no output |
| `Update.ForcedIsSearchedIff` | tag-highlight/src/update.c:102-139 | the second attempt searches what the forced run gave if and only if the run after it gives nothing, or the same lines |
| `Update.ForcedMattersIff` | tag-highlight/src/update.c:102-139 | what the forced run gives matters at all if and only if the run after it gives nothing |
| `Update.SameAgainIsVain` | tag-highlight/src/update.c:102-139 | when the normal run gives the same again, the second attempt is as vain as the first |
| `Update.ForcedLineIsLost` | tag-highlight/src/update.c:102-139 | an accepted line that only the forced run gives is not found |
| `Update.ForcedLineExample` | tag-highlight/src/update.c:102-139 | such a buffer and line |
| `Update.UpdateOnce` | tag-highlight/src/update.c:102-115 | one attempt |
| `Tokens.PiecesAreMaximal` | tag-highlight/src/lang/ctags_scan/tok.c:63-67 | the pieces hold only word characters, the cuts hold none, and interleaving them gives the text back |
| `Tokens.StrsepF` | tag-highlight/src/lang/ctags_scan/tok.c:42-60 | scans to the first rejected character, leaves a NUL there and the position behind it |
| `Tokens.DoTokenize` | tag-highlight/src/lang/ctags_scan/tok.c:28-39 | in place: the blocks are the maximal word runs without leading digits, empties skipped, in order and each NUL-terminated, and this succeeds if and only if the text does not end inside a word |
| `WordLaw.ClassesIff` | tag-highlight/src/lang/ctags_scan/tok.c:63-67 | a word begins with an underscore or a letter, a to z or A to Z, and goes on with these or 0 to 9 |
| `WordLaw.WordsIff` | tag-highlight/src/lang/ctags_scan/tok.c:28-67 | a string is a word of a text if and only if it stands there as a letter or underscore and as many letters, digits and underscores as follow, with nothing but digits between its front and the last other character |
| `WordLaw.EndsInWordIff` | tag-highlight/src/lang/ctags_scan/tok.c:28-60 | a text ends inside a word if and only if such a word stands at its end |
| `Tokens.EndsInWordExample` | tag-highlight/src/lang/ctags_scan/tok.c:36-36 | "int x" ends inside a word, "int x;" does not |
| `Tokens.ClosedTextEndsOutsideWords` | tag-highlight/src/lang/ctags_scan/tok.c:36-36 | a text whose last character cannot stand in a word meets that condition |
| `Lines.TextIsItsLines` | tag-highlight/src/util/archive_read.c:60-73 | lines, each with its newline, and the unterminated tail are the text again |
| `Lines.LinesOfWritten` | tag-highlight/src/util/archive_read.c:60-73 | lines written with newlines and any newline-free tail are split into exactly those lines and that tail |
| `Lines.Strsep` | tag-highlight/src/contrib/contrib.c:230-255 | scans to the next newline or NUL, overwrites it, and tells which it was |
| `Lines.BreakIntoLines` | tag-highlight/src/util/archive_read.c:60-73 | in place: every newline-terminated line is an element and an unterminated tail is dropped |
| `Lines.WriteLines` | tag-highlight/src/ctags.c:84-85 | each line and a newline, in order |
| `Lines.WrittenLinesAreRead` | tag-highlight/src/ctags.c:84-85 | a written tags file is read back as the same lines |
| `CStrings.CTextOfTerminated` | tag-highlight/src/util/archive_read.c:107-107 | the text of a buffer ends at its first NUL |
| `Lines.Lines2Bytes` | tag-highlight/src/lang/clang/clang.c:234-254 | the two offsets are the sizes of the joined text before the first and through the last line, clamped |
| `Lines.SliceIsLines` | tag-highlight/src/lang/clang/clang.c:234-254 | the joined text between the two offsets is exactly those lines, each with its newline |
| `Strip.LineFitsBuffer` | tag-highlight/src/lang/ctags_scan/strip.c:85-194 | no kept line is longer than the line read plus its newline, so it fits the slen + 2 buffer |
| `Strip.RunKeepsCounting` | tag-highlight/src/lang/ctags_scan/strip.c:96-119 | at every line start of every text, a region is being skipped if and only if the count of open conditionals is positive |
| `Strip.RegionIsSilent` | tag-highlight/src/lang/ctags_scan/strip.c:96-109 | while no endif matches, every line is dropped and the count follows the nesting depth |
| `Strip.RegionIsRemoved` | tag-highlight/src/lang/ctags_scan/strip.c:96-119 | at any nesting, a text with an "#if 0" region through its matching endif is stripped to the same result as the text without it |
| `StripLaw.DirectiveIff` | tag-highlight/src/lang/ctags_scan/strip.c:93-119 | a line is a directive if and only if it is blanks, "#", blanks, and something that begins with its name |
| `StripLaw.IfZeroOpens` | tag-highlight/src/lang/ctags_scan/strip.c:111-119 | from the start, blanks, "#", blanks and "if 0" with anything behind open a region with count 1 and keep nothing |
| `StripLaw.OnlyIfZeroOpens` | tag-highlight/src/lang/ctags_scan/strip.c:111-119 | no other line opens one |
| `StripLaw.InsideRegion` | tag-highlight/src/lang/ctags_scan/strip.c:96-109 | inside a region lines written with "if" and "endif" move the count by one, no other line does, and nothing is kept |
| `StripLaw.WrittenRegionIsRemoved` | tag-highlight/src/lang/ctags_scan/strip.c:96-119 | a region from a line written with "if 0" to the "endif" of its level is as if it were not there |
| `StripLaw.HiddenLinesAreRemoved` | tag-highlight/src/lang/ctags_scan/strip.c:96-119 | so are lines between two such directives, whatever blanks these are written with |
| `StripLaw.CommentBecomesBlank` | tag-highlight/src/lang/ctags_scan/strip.c:148-154 | code, a comment and code become code, one blank and code |
| `StripLaw.LiteralDisappears` | tag-highlight/src/lang/ctags_scan/strip.c:136-147 | code, a literal and code become the code alone |
| `StripLaw.LineCommentDisappears` | tag-highlight/src/lang/ctags_scan/strip.c:155-166 | code and a line comment become the code |
| `StripLaw.CommentGoesOnIff` | tag-highlight/src/lang/ctags_scan/strip.c:157-165 | a line comment takes the next line if and only if it has two characters or more and ends in a backslash with none before it |
| `StripLaw.QuotedBodyIff` | tag-highlight/src/lang/ctags_scan/strip.c:136-142 | quotes inside a literal are those behind an odd number of backslashes, and the closing one is behind an even number |
| `Strip.ScanLine` | tag-highlight/src/lang/ctags_scan/strip.c:122-183 | the character loop keeps what the specification keeps; it never writes beyond what it has read |
| `Strip.StripLine` | tag-highlight/src/lang/ctags_scan/strip.c:85-194 | one line with its buffer, state and directives |
| `Strip.HandleCstyle` | tag-highlight/src/lang/ctags_scan/strip.c:72-200 | the whole text, line by line |
| `Strip.StripComments` | tag-highlight/src/lang/ctags_scan/strip.c:31-62 | the buffer's lines joined, and stripped for C-like languages |
| `StripMeaning.LineIsKeptIffSeparated` | tag-highlight/src/lang/ctags_scan/strip.c:85-194 | for every line of code, literals and comments, indented or not, ended by a line comment, by something left open, or by nothing: its code is kept without the indentation, with a blank for each comment in between, and open is what the line leaves open, if and only if nothing delimited directly follows a closing delimiter |
| `StripMeaning.ClosingLineIsKeptIffSeparated` | tag-highlight/src/lang/ctags_scan/strip.c:122-183 | the same for a line that first closes a comment or literal an earlier line opened |
| `StripMeaning.KeptIffSeparated` | tag-highlight/src/lang/ctags_scan/strip.c:122-183 | the same for the scan from a fresh start or behind a closing delimiter |
| `StripMeaning.AdjacentLiteralsLine` | tag-highlight/src/lang/ctags_scan/strip.c:136-142 | a literal directly behind another keeps its quote and text, and leaves a literal open |
| `StripMeaning.AdjacentLiteralsExample` | tag-highlight/src/lang/ctags_scan/strip.c:136-142 | such a line |
| `StripMeaning.LiteralLineIsDropped` | tag-highlight/src/lang/ctags_scan/strip.c:125-146 | inside a literal a line that does not close it is dropped |
| `StripMeaning.ContinuedCommentIsDropped` | tag-highlight/src/lang/ctags_scan/strip.c:125-168 | a continued line comment takes the next line, and stays open over a blank one |
| `StripMeaning.QuotedIsSkipped` | tag-highlight/src/lang/ctags_scan/strip.c:136-142 | a literal ends at its first unescaped quote |
| `StripMeaning.CommentIsSkipped` | tag-highlight/src/lang/ctags_scan/strip.c:130-135 | a comment ends at its first closing mark |
| `StripMeaning.CommentLineIsDropped` | tag-highlight/src/lang/ctags_scan/strip.c:125-146 | inside a block comment a line that does not close it is dropped, whatever else is on it |
| `DirCounts.OpenKeepsValid` | tag-highlight/src/buffer.c:309-358 | opening a buffer keeps every directory listed exactly while used, counted right, and recursive ones distinct in filetype and path |
| `DirCounts.CloseKeepsValidIff` | tag-highlight/src/buffer.c:811-814 | closing a buffer does so if and only if its directory's 16-bit counter has not wrapped onto one |
| `DirCounts.RunIsValidIff` | tag-highlight/src/buffer.c:309-380 | over every run of openings and closings all this holds throughout if and only if no closing meets a wrapped counter |
| `DirCounts.FewUsersAreValid` | tag-highlight/src/buffer.c:811-814 | from an empty registry it holds throughout while no directory has more than 65536 users |
| `DirCounts.TooManyUsers` | tag-highlight/src/buffer.c:811-814 | the bound is sharp: after 65537 openings of one project a closing unlists the directory under the others |
| `DirCounts.SearchedDirectoryIsShared` | tag-highlight/src/buffer.c:309-358 | a project directory that may be searched is listed by the first file with one reference, and shared by every later one |
| `DirCounts.UnsearchedDirectoryIsNotShared` | tag-highlight/src/buffer.c:314-358 | one that must not be searched is listed again by every file whose own path names no listed directory |
| `DirCounts.TwoFilesTwoDirectories` | tag-highlight/src/buffer.c:314-358 | so two files of it get a directory each |
| `TopDirs.Registry.OpenBuffer` | tag-highlight/src/buffer.c:309-358 | in place: shares the listed directory of the same filetype and lookup path or lists a new one, as specified |
| `TopDirs.Registry.CheckOpenTopdirs` | tag-highlight/src/buffer.c:360-380 | the first listed directory with the filetype and path, or none |
| `TopDirs.Registry.CheckNorecurseDirectories` | tag-highlight/src/buffer.c:394-403 | whether the directory may be searched recursively |
| `TopDirs.Registry.CloseBuffer` | tag-highlight/src/buffer.c:811-814 | in place: gives one reference back and unlists the directory at zero, as specified |
| `TopDirs.Registry.DestroyTopdir` | tag-highlight/src/buffer.c:861-884 | takes exactly this directory off the list |
| `TopDirs.Registry.HandleRun` | tag-highlight/src/buffer.c:309-380 | a run of openings and closings in place, up to and including the first closing that meets a wrapped counter, follows the specification; everything is right at its end if and only if there was no such closing |

## Left out

- Python stripping (`handle_python`), Vim tokenising (`tokenize_vim`), list removal by index and binary printing: their behaviour departs from their intent or needs floating point.
- `ll_dequeue`: nothing calls it, and it leaves the list's links broken.
- `ll_pop` and the length: the pop leaves the length field stale, so it is stated without the length, and `VerifySize` is the repair.
- Floats, binary strings and extension objects in the encoder, which never writes them; the reader's fault for them is modelled.
- The interpretation of extension payloads as numbers, which is exact only for short ones.
- Object trees built beside the bytes in debug builds, and all other debug branches and printing.
- The reader's allocation of `size + 1` bytes for a string of 2^32 - 1 bytes, where the 32-bit sum wraps.
- Growth of the packed buffer and talloc ownership: the output is a growing sequence and memory is collected.
- Locks outside the wait queue: line events, list operations and directory counts are serial.
- The queue and futex macros' own code; their steps are taken as atomic.
- The removal of duplicate buffer words before the tag search, whose outcome depends on a comparison with a moved slot: a word is looked up among the buffer's words.
- The choice of a buffer's project directory from the settings file and its temporary files: the directory is a parameter.
- Responses that arrive later: how many turns a responder needs is stated for runs without further arrivals, because every arrival may bring a rival.
- The cache of calls: it sends a modelled batch again.
- The editor variables read for each kind's group, prefix and suffix: they are parameters.
- Tags files compressed with gzip or lzma: splitting starts from the decompressed text.
- The sizes of the arrays that grow in the tag search: the lists there are sequences.
- NUL bytes inside buffer lines: the stripped text is a C string and ends at the first of them.
- libclang and Go classification, event libraries, sockets, signals, processes, settings and logs.
- StripMeaning.LineIsKeptIffSeparated: does not cover code with a stray quote inside, because such a line has no reading as code, literals and comments.
- Lines.Lines2Bytes: does not model 64-bit wrap-around of the offsets, because a text that long does not fit in memory.
