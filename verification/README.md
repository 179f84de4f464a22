# Verified model of the MCS-51 binutils port

This project models the MCS-51 (8051) backend that `mcs51/additions.patch` adds
to GNU binutils, and the byte-exact tools kept beside it in `tb/`, and proves
what they promise for all inputs. `dafny verify dfyconfig.toml` checks it.

Code that changes state is modelled as code that changes state: the fixups and
relocations write into byte arrays, the assembler fills a `Frag`, the operand
parser advances a shared opcode pointer, the linker hooks extend an object's
section list and the hash table, and the Python tools walk, count and rewrite
in place. Each such method is proved against a function of its inputs, and the
theorems are about those functions.

| files | subject |
|---|---|
| `bits`, `wrappers`, `decimals`, `splitting` | bytes and words, options, decimal numbers, splitting at a separator |
| `opcode_table`, `opcode_map`, `row_select` | the 111 rows against the MCS-51 opcode map, which opcode byte each carries, how the parser finds the row of a line and where its expressions go |
| `relocation`, `gas_emit`, `agreement` | the relocation arithmetic in its several copies, what the assembler emits, where the copies agree |
| `linked_code`, `linked_program` | instructions and programs of symbols under any prefix, through fixup, relocation and the linker's loop, to the bytes they end as |
| `disassembler`, `codec`, `framing`, `stream`, `printed_line` | the decoder, and the round trips over instructions, whole streams and printed listings |
| `relocate_section`, `relocated_fields`, `section_parts`, `partial_link`, `final_addresses` | the linker's relocation loop, its frame and confluence, what each field says of S, A and P, trees of `ld -r`, the addresses of a final link |
| `layout` | the addresses of the default linker script, the least that fit, and its ASSERTs |
| `commons`, `common_link`, `mixed_commons`, `common_relink` | memory-space commons |
| `pcode`, `pcode_link` | `.pcode` entries, as written and as linked |
| `elf`, `elf_abi`, `elf_tables`, `elf_convert`, `elf_upper`, `elf_commute` | ELF objects by the System V ABI, re-encoding and upper-casing them |
| `comment_mask`, `mutants` | the mutant generator's comment masker, sampler and ids |
| `rom_classify` | the classifier of the 2001 ROM images |
| `hunks`, `hunk_truth` | the patch-header repairer, and that what it writes is true |

## What the code does not promise

Where a property that looks natural is false of the code, the code is modelled
as it is and the exact condition is proved.

- The disassembler prints a branch that wraps past 0..0xFFFF, and the assembler
  refuses it: re-assembling a sweep gives the bytes back exactly when no branch
  wraps (`Stream.AssembleAfterSweep`; `Stream.BackwardBranchWraps` is such a
  branch). That is so for the address in the comment; the operand itself is
  printed as a displacement, and a listing assembles to its bytes without
  exception (`PrintedLine.ListingAssembles`).
- The fixup of a symbol does not carry B2B on a data operand, nor HIGH on a bit:
  `mov a,B2B(sym,3)` and `setb HIGH(sym)` link to the low byte of the symbol,
  where the value written out gives the bit address or the high byte
  (`LinkedCode.LostEnd`, `LinkedCode.LostPrefixShows`). Under every other prefix
  a symbol and its value end as the same bytes wherever both are accepted
  (`LinkedCode.SymbolsAreTheirValues`).
- A swapped word of `.pcode` is stored low byte first if it is a constant and high
  byte first if it is a symbol, under the same flags (`PcodeLink.SwappedSymbol`).
- The assembler's fixups and the linker's relocations accept the same values but
  for those in `Agreement.GasOnly` and `Agreement.LinkerOnly`. Where both accept
  they write the same bytes, except that the linker adds a byte operand to what
  its field holds: there they agree exactly over a field of 0
  (`Agreement.GasAndLinkerAgree`). `.pcode @BYTE sym` leaves 0xFF there, and the
  two never agree on it (`PcodeLink.IndirectByteOfSymbol`).
- The linker's direct-address check looks at 16 bits, so a value that is a byte
  only modulo 2^16 passes it and fails the immediate one, and no other does
  (`Agreement.RangeChain`).
- A B2B offset above 255 is refused on a constant and cut to one byte on a
  symbol (`Agreement.WideOffsetsPart`).
- The last row of a mnemonic takes an expression for any operand, so
  `xchd a, expr` is found as `xchd a, @ri`; what is selected is characterised
  exactly (`RowSelect.SelectionIsExact`, `RowSelect.ExpressionForRegister`).
- A relocation that reaches out of its own section is refused by a straight link
  and may be applied after `ld -r` (`PartialLink.StrayRelocationIsNotTransparent`).
  A tree of `ld -r` steps is transparent exactly when it fails anyway or no
  relocation of a leaf does that (`PartialLink.PartialLinksAreTransparent`).
- An ordinary common can hide a clash of two memory spaces, so the order of the
  objects can decide the link (`MixedCommons.WhenOrderDecides`), and so can
  linking some of them first (`CommonRelink.RelinkingHidesClash`): a group can be
  linked first in every link exactly when it holds ordinary commons only, or one
  space, written out, of which a declaration stands before every ordinary one of
  nonzero size (`CommonRelink.WhenRelinkingIsTransparent`). Among memory-space
  commons alone it always can (`CommonRelink.RelinkTreesAreTransparent`).
- The comment masker reads `/*/` as a whole comment, and the documented meaning
  holds for every block comment whose text does not begin with a slash
  (`CommentMask.BlockCommentIsBlanked`).
- An empty patch file would be written back as one newline
  (`Hunks.RenderAfterSplit`); it has no hunk, so it is never written.
- The 2001 linker's defects leave a field with two equal bytes half unchanged,
  so the classifier sees a defect as one pair exactly when the two bytes differ
  (`RomClassifier.DefectIsOnePair`); a field that loses only zeros goes by an
  earlier class than its own (`RomClassifier.ClassOfDefect`).

## Model

| member | source | states |
|---|---|---|
| OpcodeTable.CarriedByOneRow | mcs51/additions.patch:5246-5356 | an opcode byte a row's bits and mask produce is carried by that row and by no other of the 111 |
| OpcodeTable.RowOfCarries | mcs51/additions.patch:5246-5356 | every byte but 0xA5 is carried by a row: the one the decoder's map names |
| OpcodeTable.NoRowCarriesA5 | mcs51/additions.patch:5246-5356 | 0xA5, the one undefined opcode of the MCS-51, is carried by no row |
| OpcodeTable.ScanFindsRow | mcs51/additions.patch:5792-5796 | the decoder's masked comparison succeeds on a row exactly when the map gives that row |
| OpcodeMap.TableIsTheMap | tb/isa/8051.txt:1-280 | the row of every opcode byte has the mnemonic and the operands the opcode map of the MCS-51 has there, and the one byte the map leaves out has no row |
| Disassembler.FindRow | mcs51/additions.patch:5792-5796 | the scan stops on the row of the byte, or on the terminator |
| Disassembler.PrintInsn | mcs51/additions.patch:5768-6039 | the scan, the three operands and the MOV direct,direct swap print what the decoding function says, for any bytes and address, truncated ones included |
| GasEmit.Frag.Fixup8 | mcs51/additions.patch:2994-3121 | appends the byte, the fixup and the diagnostic of an 8-bit operand for every expression, mode and prefix, and changes nothing before it |
| GasEmit.Frag.Fixup11 | mcs51/additions.patch:3125-3152 | the same for an in-page target, whose opcode bits go into the field |
| GasEmit.Frag.Fixup16 | mcs51/additions.patch:3156-3185 | the same for a 16-bit operand |
| GasEmit.Frag.BuildIns | mcs51/additions.patch:2750-2895 | opcode byte with register bits, operands in the order of the row's relocation letter, refused prefixes emit nothing |
| Codec.EveryShapeKnown | mcs51/additions.patch:5246-5356 | operand letters, length and mask of every row are those its relocation letter needs |
| Codec.DecodeAfterEncode | mcs51/additions.patch:2750-2895 | whatever the assembler accepts is as long as the table says, decodes to its row in front of any bytes, and prints the operands back; a printed displacement names the target from the start of the instruction |
| Codec.EncodeAfterDecode | mcs51/additions.patch:5788-5990 | whatever prints as an instruction assembles to the bytes it was read from, and is refused exactly when it is a branch that wraps |
| Framing.ReadAllAfterWriteAll | mcs51/additions.patch:5788-5990 | a reader that undoes a writer item by item undoes any concatenation of items |
| Framing.WriteAllAfterReadAll | mcs51/additions.patch:5788-5990 | the converse, with the exact condition on the items |
| Stream.SweepAfterAssemble | mcs51/additions.patch:2750-2895 | assembling any list of instructions and sweeping the bytes gives the list back, each as the encoding keeps it |
| Stream.SweepReturnsList | mcs51/additions.patch:2750-2895 | well-formed instructions come back as they were written |
| Stream.AssembleAfterSweep | mcs51/additions.patch:5788-5990 | bytes that sweep to their end re-assemble to the same bytes if no branch wraps, and are refused otherwise |
| Stream.BackwardBranchWraps | mcs51/additions.patch:5844-5859 | the concrete case: a branch back out of address 0 sweeps and is refused |
| PrintedLine.NameGivesFirstRow | mcs51/additions.patch:1789-1793 | the opcode hash leads from the mnemonic of any row to the first row of that mnemonic |
| PrintedLine.PrintedLineSelects | mcs51/additions.patch:5799-5990 | the operands of a printed line, each read by the kind of text it is, select from the mnemonic's first row the row it was printed from, with its register and the operands in memory |
| PrintedLine.PrintedLineAssembles | mcs51/additions.patch:5768-6039 | a printed line, .byte included, assembles to the bytes it was printed from, whatever bank is selected; no branch is excepted and the row is not remembered |
| PrintedLine.ListingAssembles | mcs51/additions.patch:5768-6039 | the listing of any memory, undefined opcodes included, assembles to that memory |
| LinkedCode.LinkIsEnds | mcs51/additions.patch:2994-3121 | every row, any mix of constants and symbols, any prefixes: the fixups, resolved and run through the relocation loop, give the bytes the operands' letters ask for - HIGH the second byte of the value, LOW the first, B2B the bit address, a displacement from the next instruction - and are refused exactly when an operand is out of its range |
| LinkedCode.LinkedInOrder | mcs51/additions.patch:2073-2179 | resolving all constants and then linking all symbols is doing the fixups one by one |
| LinkedCode.SymbolsAreTheirValues | mcs51/additions.patch:3076-3085 | symbols end as the bytes of their values under the same prefixes, wherever both are accepted and no prefix is lost |
| LinkedCode.LostEnd | mcs51/additions.patch:3076-3114 | where a prefix is lost the symbol ends as its low byte, which is what its value ends as exactly when the prefix names that byte |
| LinkedCode.LostPrefixShows | mcs51/additions.patch:3076-3114 | the concrete prefixes that are lost |
| LinkedCode.LinkedIsEncoded | mcs51/additions.patch:2368-2398 | for every row, operands that are any mix of constants and symbols, linked, give the bytes of the instruction of the values they are worth, wherever both are accepted |
| LinkedCode.LinkedPrints | mcs51/additions.patch:5788-5990 | and the decoder prints those bytes as that instruction |
| LinkedProgram.ProgramLinks | mcs51/additions.patch:563-710 | a program of any instructions in one frag, linked in one run of the loop, is what each instruction ends as at its own address, one after another; refused exactly when one of them is |
| LinkedProgram.ProgramPrints | mcs51/additions.patch:5788-5990 | and sweeping it gives the instructions of the values of its symbols |
| RowSelect.Parser.Advance | mcs51/additions.patch:2428-2458 | the forward scan of the shared pointer stops on the row it wants or on the one carrying 0x80 |
| RowSelect.Parser.ParseOperand1 | mcs51/additions.patch:2400-2543 | pointer, mode, register, expression and prefix after the first operand, and when it is refused |
| RowSelect.Parser.ParseOperand2 | mcs51/additions.patch:2545-2734 | the same for the second operand, which also settles an undecided first mode and puts its expression where the first left room |
| RowSelect.Parser.MdAssemble | mcs51/additions.patch:1885-1973 | the whole way from the first row of a mnemonic to the row handed to the encoder, or the refusal |
| RowSelect.RowsOfMnemonic | mcs51/additions.patch:5246-5356 | the rows of a mnemonic are contiguous, have as many operands, and only the last is marked |
| RowSelect.NoRowShadows | mcs51/additions.patch:5246-5356 | no earlier row of a mnemonic catches the operands of a later one |
| RowSelect.SelectionIsComplete | mcs51/additions.patch:2428-2467 | operands of the kinds any row names select exactly that row, with the register the line names and its expressions and prefixes in the order written |
| RowSelect.FoundIsSound | mcs51/additions.patch:2576-2694 | a row found belongs to the mnemonic and each operand is of its kind, or an expression on the last row |
| RowSelect.SelectionIsExact | mcs51/additions.patch:2460-2467 | a row is found, with its register, expressions and prefixes, if and only if it fits the line, or is the last row, takes the line's expressions for anything, and no earlier row fits, and every prefix is where it is looked for |
| RowSelect.ExpressionForRegister | mcs51/additions.patch:2460-2463 | the concrete case: an expression selects the row of an indirect register |
| Relocation.ApplyFix | mcs51/additions.patch:2073-2179 | what a resolved fixup writes into its field and when it complains, for every relocation; no other byte changes |
| Relocation.FixB2b | mcs51/additions.patch:2138-2160 | the assembler's in-place bit-address fold |
| Relocation.FinalLinkRelocate | mcs51/additions.patch:407-542 | what the linker writes for every relocation over what the field holds, its status, and that only the bytes of the field change, none when the field is out of the section |
| Relocation.RelocateB2b | mcs51/additions.patch:468-493 | the linker's in-place bit-address fold |
| Relocation.RelocatePcode | mcs51/additions.patch:495-512 | the 13-bit address under the three flags the field keeps |
| Agreement.GasAndLinkerAgree | mcs51/additions.patch:2073-2179 | the values only one of fixup and relocation accepts are exactly two lists; where both accept the bytes are the same, for the kinds with source mask 0xff if and only if the field holds 0 |
| Agreement.RelativeBranch | mcs51/additions.patch:2001-2009 | fixup and relocation of a branch accept the same targets, exactly -128..127 from the next instruction, and write the same byte |
| Agreement.BranchPrintsTarget | mcs51/additions.patch:5844-5859 | from that byte the decoder prints the target twice: displacement from the start of the instruction, and address modulo 2^16 |
| Agreement.InpageJump | mcs51/additions.patch:2118-2136 | ACALL/AJMP: both accept exactly the targets in the 2K page of PC+2, write the same bytes, keep five opcode bits, and the decoder reads the target back |
| Agreement.ByteHalves | mcs51/additions.patch:2083-2102 | HIGH and LOW are the two bytes of the value on all three paths, added by the linker to what the field holds, and the second range check after the shift never fires |
| Agreement.RangeChain | mcs51/additions.patch:273-309 | linker direct within linker immediate exactly but for values that are a byte modulo 2^16 only; linker immediate = constant within fixup; the byte each path writes |
| Agreement.FoldCopiesAgree | mcs51/additions.patch:1668-1693 | suffix, constant, fixup and linker fold the same (byte, bit) pairs to the same bit address; the linker differs at address 0 only |
| Agreement.WideOffsetsPart | mcs51/additions.patch:3106-3113 | constant and symbol paths agree exactly when the offset fits a byte or its low byte names no bit |
| Agreement.FoldIsBijection | tb/isa/bits.py:3-18 | the fold is a bijection from bit-addressable (byte, bit) pairs onto 0..255 |
| RelocateSection.RelocateSection | mcs51/additions.patch:563-710 | the loop over the relocations of a section: final contents and verdict, stopping at the first out-of-range one |
| RelocateSection.BytesOutsideKept | mcs51/additions.patch:563-710 | a byte in no relocation's field never changes, whatever becomes of the relocations |
| RelocateSection.CleanRun | mcs51/additions.patch:563-710 | over disjoint fields a run is clean exactly when each relocation succeeds alone, and each field holds what it writes alone |
| RelocateSection.OrderIrrelevant | mcs51/additions.patch:563-710 | over disjoint fields the verdict and the final contents do not depend on the order |
| RelocatedFields.CleanRunSays | mcs51/additions.patch:407-542 | over disjoint fields, with S, A and P written out: the run is clean exactly when each S + A is in the range of its kind, and then each field says it - a displacement from P, the page and eleven bits of a jump, a word, a byte added to what was held, a bit address, thirteen bits under the flags - and every other byte is as it was |
| RelocatedFields.WritesWhatItSays | mcs51/additions.patch:436-541 | a field holds what its relocation writes if and only if it says that |
| RelocatedFields.OneContents | mcs51/additions.patch:563-710 | what the fields say leaves one choice for the contents |
| SectionParts.PartsAreOneRun | mcs51/additions.patch:563-710 | relocating the pieces of an output section one by one is relocating it as a whole |
| SectionParts.OnceIsLoop | mcs51/additions.patch:563-710 | a piece relocated on its own is the loop of `RelocateSection` over its relocations |
| SectionParts.StrayPartFails | mcs51/additions.patch:428-434 | a link in which a relocation reaches out of its piece is never clean, whatever the others do |
| SectionParts.TurnIsLocalToParts | mcs51/additions.patch:428-541 | a relocation inside a piece reads and writes that piece only, PC-relative and in-page ones included |
| PartialLink.CombiningIsTransparent | mcs51/additions.patch:578-596 | `ld -r` of any run of objects, with the addend adjusted for section symbols only, changes no byte and no verdict of the final link if and only if that link fails anyway or no relocation reaches out of its own section |
| PartialLink.PartialLinksAreTransparent | mcs51/additions.patch:578-596 | any tree of `ld -r` steps gives the verdict and the bytes of one straight link, for every relocation, under the same condition on the leaves, if and only if |
| PartialLink.StrayRelocationIsNotTransparent | mcs51/additions.patch:428-434 | two objects, one with a relocation past its section: refused in one link, clean once `ld -r` has combined them |
| FinalAddresses.FinalLinkSays | mcs51/additions.patch:563-710 | in a clean final link every input section stands behind those before it, and, where no two overlap, each of its fields says what its relocation asks for at that address and every other byte is as it was |
| FinalAddresses.LocalNamesItsByte | mcs51/additions.patch:611-617 | a section symbol or a local one is the address at which the byte it names lands |
| FinalAddresses.GlobalNamesItsByte | mcs51/additions.patch:625-640 | a global is the address of its byte in the first object that defines it, or what the link was given |
| Layout.LayoutIsLeast | mcs51/additions.patch:5468-5592 | of all placements of the sections in script order, .bdata from 0x20 on and the named bits in bytes of their own, none starts any section earlier, nor the stack |
| Layout.RefusedOnlyIfNothingFits | mcs51/additions.patch:5595-5602 | the ASSERTs pass exactly when some such placement is in the machine's reach |
| Layout.StackIsFirstFree | mcs51/additions.patch:5553-5555 | the stack starts at the first byte from 0x20 on behind everything occupied |
| Layout.ExtentsOrdered | mcs51/additions.patch:5468-5602 | for all sizes passing the ASSERTs the internal RAM is allocated in order, below 0x100 and below the stack |
| Layout.ExtentsDisjoint | mcs51/additions.patch:5468-5602 | no byte belongs to two sections, the bytes of the named bits included |
| Layout.NamedBitsHaveBytes | mcs51/additions.patch:5506-5528 | named bit b lives in byte 0x20+b/8 between the end of .bbss and the start of .data, and is the fold of that byte |
| Layout.BitAddressesUnique | mcs51/additions.patch:5489-5521 | bits of .bdata/.bbss bytes, named bits and register bits never share a bit address |
| Layout.AssertsAreExact | mcs51/additions.patch:5595-5602 | the ASSERTs refuse exactly the links in which something is out of the machine's reach |
| Layout.DataAssertImplied | mcs51/additions.patch:5598-5600 | the second half of the bit-space ASSERT follows from the first |
| Commons.Bfd.CommonSection | mcs51/additions.patch:1003-1018 | finds or appends the fabricated section of a space, and changes nothing else in the list |
| Commons.CollectingSeparates | mcs51/additions.patch:1003-1018 | over any calls: sections of the file keep place and flags and are never returned, one fabricated section for each space asked for and no other |
| CommonLink.Table.AddCommon | mcs51/additions.patch:1058-1137 | one declaration: refused on a clash of spaces with nothing changed, else arbitrated; other names untouched |
| CommonLink.SpacesMustAgree | mcs51/additions.patch:1058-1098 | memory-space commons link if and only if all name one space, and are then held in it at the largest size |
| CommonLink.OrderIndependent | tb/sim/run-commons.sh:599-612 | verdict, space and size are the same in every order |
| CommonLink.LinkOrderIndependent | tb/sim/run-commons.sh:599-612 | the same for a link of any number of names |
| CommonLink.FirstGroupRelinks | mcs51/additions.patch:1147-1179 | the common an `ld -r` of the first objects writes stands for all the declarations behind it, ordinary ones included |
| CommonLink.SpaceSurvives | mcs51/additions.patch:773-825 | a common keeps its space, and an ordinary one its lack of one, when its object is relinked alone any number of times |
| CommonRelink.RelinkTreesAreTransparent | mcs51/additions.patch:1058-1179 | memory-space commons: any tree of `ld -r` steps gives the verdict, space and size of one straight link |
| CommonRelink.SpaceSurvivesTrees | mcs51/additions.patch:1147-1179 | whatever other objects are linked with it, and how, the common written in the end has the space of each declaration and at least its size |
| CommonRelink.GroupIsItsCommon | mcs51/additions.patch:1058-1179 | on a name held as anything, the relinked common of a group with ordinary commons does what the group does if and only if both or neither meet a clash of spaces |
| CommonRelink.WhenRelinkingIsTransparent | mcs51/additions.patch:1058-1179 | a group can be relinked in every link without effect if and only if its declarations are all ordinary, or of the one space written out, one of them before every ordinary one of nonzero size |
| CommonRelink.RelinkingHidesClash | mcs51/additions.patch:1058-1098 | the concrete case: `.xcomm x,20`, `.comm x,10`, `.icomm x,5` is refused, and accepted when the last two are linked first |
| MixedCommons.WhenOrderDecides | mcs51/additions.patch:1058-1098 | with ordinary commons among them: every order links exactly when the spaces agree, none exactly when two clash in the open, else the order decides |
| Pcode.WriteOperand | mcs51/additions.patch:3831-3935 | the bytes and fixups of an operand in each of the seven modes |
| Pcode.WriteLine | mcs51/additions.patch:4059-4122 | a whole entry: address, flags and the three operands |
| Pcode.OperandFlagsDescribe | mcs51/additions.patch:3937-4057 | in every mode, for constants and symbols, an operand is as long as its two allocation bits say; its other flags are indirection and swap |
| Pcode.PackedBits | mcs51/additions.patch:4072-4079 | the packing of the three operands' flags is disjoint |
| Pcode.EntryDelimitsItself | mcs51/additions.patch:4059-4122 | an accepted entry splits off in front of any bytes into address, flags and operand bytes |
| Pcode.EntriesSplitBack | mcs51/additions.patch:4059-4122 | any concatenation of entries splits back into what each says |
| PcodeLink.FixesAreBeside | mcs51/additions.patch:4059-4122 | the fixups of an entry are at its address word or behind its flags |
| PcodeLink.RelocationKeepsShape | mcs51/additions.patch:563-710 | whatever the relocations of a section come to, refused ones included, an entry in it keeps its flags and its length |
| PcodeLink.ExecIsRelocated | mcs51/additions.patch:495-512 | after a clean run its execution address is the symbol's, or as it was if that is 0 |
| PcodeLink.IndirectByteOfSymbol | mcs51/additions.patch:3861-3881 | `@BYTE` of a symbol: the linker writes what the directive writes for a constant, the value less one, and md_apply_fix never does |
| Pcode.OperandMeans | mcs51/additions.patch:3831-3935 | the stored bytes of a constant give its value back in the way of its mode |
| Pcode.RefusedLines | mcs51/additions.patch:3937-4057 | a line is refused exactly for an address outside 0x100..0x1FFF, a constant outside its mode's range, or a swapped symbol as the second operand |
| Pcode.FlagsOfSymbol | mcs51/additions.patch:3937-4057 | a symbol has the flags of a value with no zero byte |
| PcodeLink.EntryLinks | mcs51/additions.patch:4059-4122 | an entry of any constants and symbols, linked: its flags, the address and the operands' bytes, and exactly when it is refused |
| PcodeLink.SwappedSymbol | mcs51/additions.patch:3910-3934 | the concrete difference: a swapped word as a constant and as a symbol |
| ElfAbi.RecordsAreStructures | tb/i51elf_le2be.py:44-192 | the fields of every record are the members of its System V structure one behind the other, less single bytes and e_machine |
| ElfAbi.HeadReadsMembers | tb/i51elf_sym_uc.py:66-71 | the values that steer the reading are sh_type, sh_offset, sh_size, sh_link and sh_entsize |
| ElfAbi.FieldsOfObject | tb/i51elf_le2be.py:103-192 | the fields turned are those of the header, of every section header in the file and of every symbol and relocation in it, and no others |
| ElfAbi.ConvertsObjects | tb/i51elf_le2be.py:24-42 | which files are converted and which raise, by e_ident |
| ElfAbi.UppercasesObjects | tb/i51elf_sym_uc.py:35-57 | which files are read and in which order, by e_ident and the section header table |
| ElfConvert.ConvertElf | tb/i51elf_le2be.py:24-199 | the nested loops over headers, sections, symbols and relocations, each field turned in the bytes as the earlier ones left them; when the file is refused and when an exception stops it |
| ElfConvert.ConvertHeader | tb/i51elf_le2be.py:44-98 | the ELF header in place, with the new EI_DATA and machine |
| ElfConvert.ConvertSection | tb/i51elf_le2be.py:108-146 | one section header in place, and the values read from it |
| ElfConvert.ConvertEntries | tb/i51elf_le2be.py:149-192 | a symbol or relocation table in place, up to the end of the file |
| ElfConvert.ConvertedBytes | tb/i51elf_le2be.py:24-199 | each output byte: the mirror byte of its field, the new EI_DATA and machine, or unchanged; the length is kept |
| ElfConvert.ConvertKeepsMeaning | tb/i51elf_le2be.py:24-199 | read little-endian the output is the object the input is big-endian, with machine 165 |
| ElfTables.SeparateTablesApart | tb/i51elf_le2be.py:103-192 | tables that do not overlap and entries of the ABI's size are enough for that |
| ElfUpper.UppercaseStrtab | tb/i51elf_sym_uc.py:73-78 | split, upper-case, join and cut is upper-casing every byte |
| ElfUpper.UppercaseSymbols | tb/i51elf_sym_uc.py:81-124 | which files are refused, and the bytes of the others |
| ElfUpper.UpIsAlphabet | tb/i51elf_sym_uc.py:73-78 | the letters a to z become A to Z one by one and no other byte changes |
| ElfUpper.StringsAreLinked | tb/i51elf_sym_uc.py:103-118 | the string tables are those the symbol tables link to, and the file is refused exactly when one links to no string table inside the file |
| ElfUpper.UppercasedBytes | tb/i51elf_sym_uc.py:103-118 | exactly the bytes of linked string tables change, once however often a table is linked |
| ElfUpper.NamesKeepOffsets | tb/i51elf_sym_uc.py:10-12 | at every offset of a string table stands the same name in upper case |
| ElfCommute.UpperKeepsObject | tb/i51elf_sym_uc.py:10-13 | upper-casing changes no field of the object |
| ElfCommute.ConvertAndUpperCommute | tb/i51elf_sym_uc.py:81-124 | the two scripts in either order accept the same files and write the same bytes |
| CommentMask.LiteralEnd | tb/mutation/gen.py:121-132 | the end of a literal with its escapes, or its start if it does not close on the line |
| CommentMask.LiteralCloses | tb/mutation/gen.py:121-132 | a literal closes at the first quote behind its opening with an even number of backslashes before it, and not at all if there is none |
| CommentMask.UnclosedQuoteIsText | tb/mutation/gen.py:88-91 | a quote that does not close on its line is ordinary text |
| CommentMask.MaskComments | tb/mutation/gen.py:82-118 | the loop over characters and lines blanks what the marking function marks, carrying an open comment to the next line |
| CommentMask.MaskingKeepsColumns | tb/mutation/gen.py:85-88 | every line keeps its length and a changed character becomes a space |
| CommentMask.MaskingIsIdempotent | tb/mutation/gen.py:82-118 | masking masked lines changes nothing and leaves no comment open, unclosed quotes and escapes included |
| CommentMask.BlockCommentIsBlanked | tb/mutation/gen.py:98-107 | a block comment is blanked whole and what follows is code, or three characters of it if its text begins with a slash |
| CommentMask.OpenCommentIsBlanked | tb/mutation/gen.py:98-107 | a comment left open is blanked to the end of the line and goes on in the next |
| CommentMask.BlockCommentCloses | tb/mutation/gen.py:98-105 | a line inside a comment is blanked up to the first close |
| CommentMask.BlockCommentGoesOn | tb/mutation/gen.py:98-105 | a line inside a comment that does not close is blanked whole |
| CommentMask.LineCommentIsBlanked | tb/mutation/gen.py:108-111 | a line comment is blanked to the end of the line and no further |
| CommentMask.LiteralIsKept | tb/mutation/gen.py:88-91 | a literal is kept whatever it holds, a comment opener too |
| Mutants.SampleIsEven | tb/mutation/gen.py:433-438 | the sample has the size asked for, keeps the order, starts at the first item, and neighbours are floor or ceiling of the even distance apart, to the end |
| Mutants.Gap | tb/mutation/gen.py:438-438 | the distance of two neighbouring indices |
| Mutants.PickIsShare | tb/mutation/gen.py:438-438 | an index is the exact share of the items before it, rounded down |
| Mutants.WhatIsPicked | tb/mutation/gen.py:433-438 | without a cap, or under it, every match is taken; else as many as the cap, each the exact share of its place |
| Mutants.Rank | tb/mutation/gen.py:469-473 | numbers each match within its line and counts the matches of every line |
| Mutants.Name | tb/mutation/gen.py:469-492 | the ids of one operator on one file |
| Mutants.ChangesTheFile | tb/mutation/gen.py:477-479 | a match is left out exactly when applying its mutant leaves the file as it is |
| Mutants.IdsAreMutants | tb/mutation/gen.py:474-492 | the ids are exactly those of the sampled matches whose mutant is another file |
| Mutants.IdSays | tb/mutation/gen.py:480-482 | an id reads back as its line, from 1 on, and, unless the match is alone on it, as one more than the matches before it there |
| Mutants.IdNamesItsMatch | tb/mutation/gen.py:480-482 | equal id strings name the same file, operator, line and match |
| Mutants.MutantIdsAreUnique | tb/mutation/gen.py:494-500 | no two mutants of a run share an id, whatever the caps |
| RomClassifier.Classify | tb/hexoracle.py:151-181 | the walk's counts and residual list are those of its trace of events |
| RomClassifier.ClassificationIsLossless | tb/hexoracle.py:151-181 | the 2001 image is rebuilt byte for byte from the produced one and the trace |
| RomClassifier.EachIndexHasOneOwner | tb/hexoracle.py:151-181 | every index is consumed by exactly one event: an equal byte, or a bucket whose first byte differs |
| RomClassifier.CountsBoundDifferences | tb/hexoracle.py:151-181 | with p pairs and s single events the differing bytes are 2p+s less the pairs of two equal 2001 bytes, so between p+s and 2p+s |
| RomClassifier.DefectIsOnePair | tb/hexoracle.py:22-41 | each of the four documented defects is one pair event exactly when the two bytes of the field differ |
| RomClassifier.FirstDefectNames | tb/hexoracle.py:151-181 | what each position is called: the first of the four defects, in the order of the tests, that explains its two bytes, else zero or residual |
| RomClassifier.ClassOfDefect | tb/hexoracle.py:22-41 | the class of each defect for every field: its own, but where what was lost is 0 or the bytes are a plain exchange |
| RomClassifier.DefectsOverlap | tb/hexoracle.py:161-172 | two defects explain one field only where the upper byte is below 32 or divisible by 32 |
| Hunks.Process | tb/fixhunks.py:112-152 | the exit code, the stale lines reported and the file afterwards, reading on in the lines it rewrites |
| Hunks.RepairHunk | tb/fixhunks.py:119-141 | one hunk: its header and the index line three above it |
| HunkTruth.FileIsBuilt | tb/fixhunks.py:88-90 | the file of a hunk is its lines that begin with a plus, in order, each at the place the ones before it leave, up to the end of the body; no other file is |
| HunkTruth.RepairedSaysTruth | tb/fixhunks.py:119-141 | after a repair the number read back from every header is the number of its added lines, every index line has its zeros and as much of the hash of the hunk's file as stood there, and every other line is as it was |
| HunkTruth.NothingStaleIsTruth | tb/fixhunks.py:117-141 | nothing is stale exactly when the patch says all that already, and exactly then no line changes |
| HunkTruth.ReportsAreChanges | tb/fixhunks.py:123-140 | what is reported is every line that changes, what it was and what it becomes, and nothing else |
| HunkTruth.WalkVisits | tb/fixhunks.py:55-85 | the walk visits every hunk in order, unless one does not add a whole file: it stops at the first of those |
| HunkTruth.PathIs | tb/fixhunks.py:79-83 | the path is what stands behind +++ and b/ |
| Hunks.RenderAfterSplit | tb/fixhunks.py:46-52 | splitting and joining a patch gives it back exactly when it is not empty |
| Hunks.SplitAfterRender | tb/fixhunks.py:146-151 | the lines written are the lines read again, the trailing newline included |
| Hunks.HunksKept | tb/fixhunks.py:55-85 | the repaired patch has the hunks and paths of the old one |
| Hunks.NothingStale | tb/fixhunks.py:117-141 | a second pass over a repaired patch finds nothing stale |
| Hunks.StaleMeansChanged | tb/fixhunks.py:117-141 | something is reported exactly when a repair changes a line |
| Hunks.RepairIsFinal | tb/fixhunks.py:112-152 | after a rewrite: the same hunks and files, nothing stale, and only hunk headers and index lines changed |

## Left out

- The part of `md_apply_fix` that works out the value of a fixup from its symbols: the finished value and the place of the field are given; `i51_check_direct`, a diagnostic on the symbol behind it, goes with it.
- Symbol lookup in the relocation loop: the value and the kind of each symbol are given; indirect and warning entries and the check of the relocation number are not modelled.
- Generic gas and BFD: `fixup_segment`, frags and relaxation, the default relocation (taken as an overflow rule on 16 address bits and a masked addition to the field), the arbitration of commons, the placing of input sections by `ld -r` (taken without alignment padding).
- PartialLink.PartialLinksAreTransparent: an object whose relocation or symbol names a section that does not exist is not modelled.
- Lexing of operands and of directives: an operand is its letter and value, or its kind and an expression with its prefix; finding the prefix keywords, the comma of B2B, a bit suffix and missing operands that the expression parser reports are not modelled, nor the characters operands are printed as, nor the names a disassembler's caller may print for code addresses.
- The location counter: a displacement printed on it is read as the address it comes to.
- GasEmit.Frag.Fixup8: a register expression, on which the assembler stops for good, is a refusal here.
- RowSelect.Parser.ParseOperand1: an operand that starts with a slash, which no row takes first, is refused without going through the expression parser.
- The howto table as data, section flags, the hooks that have no branch of their own, stabs and DWARF sections of the linker script.
- ElfConvert.ConvertKeepsMeaning: RELA addends are compared as unsigned words; their sign is a function of the word.
- Reading and writing files, command lines, messages and exit codes of the Python tools, except the exit code of the patch repairer; the regular expressions of the mutation operators; Intel HEX decoding; SHA-1, which is any function giving forty hexadecimal digits.
- `tb/sim` drivers, release, coverage and configuration scripts: no property beyond plumbing.
