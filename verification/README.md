# A verified model of the HMR compiler and runtime

This project models, in Dafny, how a header-manipulation ruleset is given meaning and how the
repository's three back ends carry that meaning out: the tree-walking interpreter, the generator of
a graph of basic blocks, and the generator of nested C++ closures. All three drive one runtime,
which is modelled too: the zero-copy SIP message over a bump arena, URI component rewriting, the
matchers, and the per-worker context. The value parser, the optimizer, and the hot replacement of
modules complete the picture.

The layers, from the ground up:

- `text`, `ast`, `lowering`: byte strings, the ruleset, and the decisions all back ends share.
- `arena`, `uri`, `uri_laws`, `uri_display`: the arena, the offset-based URI rewriting, and its get/set
  laws, which are proved against an independent declarative reading of where the cuts of a value lie.
- `matchers`, `subnets`, `ip_matchers`, `ipv6_text`, `ip_text`: address texts to bytes, bytes to integers,
  and the tests from text to answer.
- `message`, `sip_message`, `sip_roundtrip`, `wire_format`, `uri_fields`: the plain message, the class of
  packet and arena views that refines it, the round trips between parsing and printing, what the bytes of
  a packet mean, and the laws of URI fields.
- `runtime`, `context`: each callback as a function on a plain state, and the class that carries it out.
- `semantics`, `numbering`: the meaning of a ruleset under a numbering of slots and patterns, and the
  numbering one walk over the rules assigns.
- `interpreter`: the two-mode walk.
- `element_laws`, `rule_laws`: what element rules, guards and filters do, told by the parts, letters and
  texts they are about and not by the selectors the back ends share.
- `runtime_calls`, `fragments`: the runtime calls both generators emit, and their shared straight-line code.
- `block_graph`, `ir_emission`, `ir_correct`, `ir_wellformed`, `ir_generator`: the target graph with its
  small-step execution, what is emitted, that it is correct and well formed, and the emitter class.
- `cpp_closures`, `cpp_emission`, `cpp_generator`, `cpp_literals`: the same for the C++ back end.
- `agreement`: the three back ends against each other.
- `value_parser`, `captures`, `value_names`: the value language, capture slots end to end, and which
  reference every `$` begins.
- `optimizer`, `optimizer_laws`, `fusion`, `fusion_limits`: the passes and their fixpoint, what they take for
  equal, plain or idle, when fusing rules preserves meaning, and that each condition of it is needed.
- `hot_swap`, `swap_history`: loads, snapshots and releases of modules in every interleaving, and what a
  state says about the schedule behind it.

Conventions. A string is a sequence of characters standing for bytes. A view handed out by the
runtime is modelled by its content wherever it is only read; that this is sound, because no byte of
the arena that was handed out changes before the next reset, is itself proved (`Memory`,
`SipMessage`). The regex engine is an uninterpreted function from a pattern entry and a subject to an
optional list of captures. The operations that read headers take the arena as a parameter, since the
views they follow may lie in it. Generator methods take the final numbering as a ghost parameter
that the caller names; the numbers they emit are proved to be the ones it assigns.

Where the documentation and the code differ, the code is followed: `docs/runtime-api.md` and
`docs/architecture.md` still give ABI version 1 and an `Unloaded` event, while the header defines
version 2 and the manager reports only `Loaded`, `Reloaded` and `LoadFailed`.

Every lemma carries `{:induction false}`, so that no proof rests on an induction found automatically: a
proof by induction is a lemma that calls itself.

A decision that the back ends share, such as which part of a URI an element kind names, which field is
which header's, where a word of the start line ends or what a name in capitals is, is defined once; the
laws about it are stated in the characters and parts themselves, so that they fix the definition.

Some laws hold only under a condition.

- Writing user, host or port changes that component and nothing else if and only if the text is safe
  at that place (`UriLaws.SetGet`). For a value without a scheme that includes one of three cases in
  which the address would start to spell one; `UriLaws.SchemelessUser`, `UriLaws.SchemelessHost` and
  `UriLaws.SchemelessPortInsert` are the families of values where it does. Writing the display name of a
  value with `<` has its own exact condition (`UriDisplay.SetGetDisplay`).
- The first successful load reports `Loaded` and every later one `Reloaded` if and only if each
  successful load read after a publish exactly when it notifies after another notification
  (`HotSwap.FirstLoadedIff`). Loads that do not overlap meet that, whichever threads make them
  (`HotSwap.OneAtATimeReports`), and so does one writer (`HotSwap.OneWriterReports`);
  `HotSwap.TwoWritersBothLoaded` is a schedule of two writers that does not.
- Fusing two rules preserves meaning when what the first one does leaves their common guard, and the
  captures it records, as they were; when they spell the header alike, name their element stores or
  share a name, and lose no header-level replacement (`Fusion.FusedRule`). None of these can be dropped:
  for each, `FusionLimits` has a family of pairs that meet the others and that the code fuses all the
  same, with another effect.

## Model

| member | source | states |
|---|---|---|
| Lowering.CountCapturingGroups | include/hmr/codegen/lowering.hpp:88-111 | the scanning loop returns the number of positions, outside escapes and classes, at which a group opens, with the `(?<name>` form counted and the other `(?` forms not |
| Lowering.CountIsGroups | include/hmr/codegen/lowering.hpp:88-111 | the recursive count is the number of positions outside escapes and classes at which a capturing group opens |
| Memory.HmrArena.Alloc | include/hmr/runtime/arena.hpp:43-48 | an allocation hands out the next bytes or, when they do not fit, nothing; bytes handed out before keep their values |
| Memory.HmrArena.Dup | include/hmr/runtime/arena.hpp:52-62 | the copy reads as the original and is appended; a null view exactly when a non-empty text does not fit |
| Memory.ReadStable | include/hmr/runtime/arena.hpp:31-62 | a view in bounds reads the same after any further allocation |
| UriLaws.CutsOfIsCut | src/runtime/uri.cpp:21-84 | the offsets found are the declarative cuts: first `<`, first `>` after it, recognised scheme, first `@`, first of `;?>`, last `:` |
| UriLaws.CutUnique | src/runtime/uri.cpp:21-84 | a value has exactly one such cutting |
| UriLaws.PartsCompose | src/runtime/uri.cpp:21-84 | gluing parts and parsing gives them back if and only if they are canonical |
| UriLaws.PartsAreCanonical | src/runtime/uri.cpp:21-84 | the parts of any value are canonical and glue back to it byte for byte |
| Uri.RebuildUri | src/runtime/uri.cpp:86-166 | the rebuilt bytes are written to the arena as one view, or nothing when they do not fit |
| UriLaws.SpliceIsUpdate | src/runtime/uri.cpp:99-165 | splicing at the computed offsets, component present or inserted, is an update of that one part |
| UriLaws.UpdateSpellsScheme | src/runtime/uri.cpp:44-52 | a safe rewrite of an address without a scheme makes the recogniser find one in exactly three cases: a user text that starts with a scheme, a host text that does once the `:` of the port follows, a port inserted after a host spelled like a scheme |
| UriLaws.SetGet | src/runtime/uri.cpp:86-166 | writing user, host or port changes that part to the text and no other part, if and only if the text holds none of the separators that matter there and does not make an address without a scheme start to spell one |
| UriLaws.SetGetPlain | src/runtime/uri.cpp:86-166 | with a recognised scheme and text free of `@ : ; ? < >`, the component reads back and scheme, display, the other components and the tail are unchanged |
| UriLaws.GetSet | src/runtime/uri.cpp:86-166 | writing a present component's own text back returns the value byte for byte, for any input |
| UriLaws.SetTwice | src/runtime/uri.cpp:86-166 | setting twice is setting once with the second text |
| UriLaws.SetCommutes | src/runtime/uri.cpp:86-166 | rewrites of different components commute on values with a scheme and plain texts |
| UriLaws.AddressReads | src/runtime/uri.cpp:21-84 | a written-out `display <scheme:user@host:port;params>` with scheme sip, sips or tel is read part by part |
| UriLaws.HostReads | src/runtime/uri.cpp:44-84 | a bare host with parameters is all host up to the first `;` or `?` |
| UriLaws.SchemelessPortInsert | src/runtime/uri.cpp:44-52 | without a scheme the law fails: inserting a port after a host spelled like a scheme turns the host into the scheme |
| UriLaws.SchemelessUser | src/runtime/uri.cpp:44-52 | without a scheme the law fails: a user text that starts with a scheme and a colon becomes the scheme and the user |
| UriLaws.SchemelessHost | src/runtime/uri.cpp:44-52 | without a scheme the law fails: a scheme word written over the host of `host:port` becomes the scheme, and the port the host |
| UriDisplay.DisplayReadsBack | src/runtime/uri.cpp:13-32 | a text written over a display name reads back if and only if it stands between quotes, or is trimmed and not itself quoted |
| UriDisplay.SetGetDisplay | src/runtime/uri.cpp:86-166 | writing the display name of a value with `<` reads back, with scheme, user, host, port and tail unchanged, if and only if the text has no `<` and reads back between its neighbours |
| UriDisplay.InsertsDisplay | src/runtime/uri.cpp:132-140 | a display name written to a value without `<` is put in front with a space |
| UriDisplay.WholeValue | src/runtime/uri.cpp:141-146 | the whole-value selector, and any unknown one, replaces everything; the whole value reads as itself and an unknown selector reads empty |
| Matchers.ParseUint | src/runtime/matchers.cpp:35-45 | the loop accepts exactly the non-empty digit strings whose value is at most the bound, and returns the value |
| Matchers.ParseIpv4 | src/runtime/matchers.cpp:49-62 | the cursor loop parses exactly the four-field dotted quads with fields up to 255 |
| Matchers.ParseV6Part | src/runtime/matchers.cpp:67-99 | the group loop parses exactly the colon-separated groups, with a dotted quad only as the last and at most sixteen bytes |
| Matchers.ParseIpv6 | src/runtime/matchers.cpp:101-127 | brackets and zone stripped, at most one `::`, eliding at least one group |
| Ipv6Text.ElisionIsZeros | src/runtime/matchers.cpp:101-127 | `head::tail` with at most seven groups gives the same sixteen bytes as the zero groups written out |
| Ipv6Text.DottedTailIsTwoHextets | src/runtime/matchers.cpp:75-82 | a dotted IPv4 tail means its two hextets, with and without `::` |
| Ipv6Text.PrintParse | src/runtime/matchers.cpp:101-127 | printing eight groups and parsing returns the same sixteen bytes |
| IpText.QuadReads | src/runtime/matchers.cpp:49-62 | four decimal fields up to 255, joined by dots, are read as those bytes |
| IpText.QuadOnly | src/runtime/matchers.cpp:49-62 | whatever is read as a dotted quad is four such fields with those values |
| IpText.PrintedReads | src/runtime/matchers.cpp:136-152 | an IPv4 or IPv6 address written out, padded or not, is read as that address |
| IpText.V6Spellings | src/runtime/matchers.cpp:101-105 | an IPv6 text reads the same padded, in brackets, with a zone, and with both |
| IpText.ElidedReads | src/runtime/matchers.cpp:107-118 | `head::tail` is the address with zero groups between if it leaves out at least one group, and no address otherwise |
| IpText.OneElision | src/runtime/matchers.cpp:108-110 | a text with two `::` is no address |
| IpText.UpperHex | src/runtime/matchers.cpp:20-25 | hex digits are read alike in either case |
| Subnets.MemcmpIsOrder | src/runtime/matchers.cpp:129-132 | comparing bytes of equal length is comparing big-endian integers |
| Subnets.LeadingBitsAreQuotient | src/runtime/matchers.cpp:203-213 | the whole-byte and masked-byte test holds exactly when the integers agree on the quotient by the block size |
| Subnets.QuotientIsInterval | src/runtime/matchers.cpp:203-213 | equal quotients mean membership in the interval from the block base to base plus size minus one |
| IpMatchers.MaskPrefix | src/runtime/matchers.cpp:185-198 | the bit loop accepts a dotted mask exactly when its ones lead, and returns how many there are |
| IpMatchers.MatchIpMask | src/runtime/matchers.cpp:170-214 | the matcher decides subnet membership as integer arithmetic, false on anything malformed or of another family |
| IpMatchers.SubnetIsInterval | src/runtime/matchers.cpp:199-213 | a `/p` test holds if and only if the subject lies in the interval of 2^(w-p) addresses around the network |
| IpMatchers.DottedMaskIsPrefix | src/runtime/matchers.cpp:183-198 | a dotted mask answers exactly as its `/p` form, and is accepted only when contiguous |
| IpMatchers.MatchIpRange | src/runtime/matchers.cpp:216-225 | range membership is integer order within one family |
| IpText.EqualTexts | src/runtime/matchers.cpp:163-168 | the equality test on two written addresses is equality of the addresses, for both families |
| IpText.SubnetTexts | src/runtime/matchers.cpp:170-214 | the test of an address text against `network/p` holds if and only if families agree, p is at most the width and the integer lies in the block of 2^(w-p) around the network |
| IpText.MaskTexts | src/runtime/matchers.cpp:183-198 | against `network/mask` it holds as for the prefix of the leading ones, and never for a mask with a gap |
| IpText.RangeTexts | src/runtime/matchers.cpp:216-225 | the test against `low-high` holds if and only if families agree and the integers are in order |
| SipMessage.HmrSipMsg.Parse | src/runtime/sip_message.cpp:177-263 | the parsing cursor fills views that lie in the packet and read as the plain parse of it, malformed lines skipped and headers past the limit dropped |
| WireFormat.RequestLine | src/runtime/sip_message.cpp:226-236 | a request line is read as its method and its request-URI with the place it starts at, whatever follows |
| WireFormat.PlainRequestLine | src/runtime/sip_message.cpp:226-236 | of `method uri version`, the request-URI is the second word, and the version is not part of it |
| WireFormat.StatusLine | src/runtime/sip_message.cpp:206-223 | a status line is read as its code, at 32 bits, and its reason without padding |
| WireFormat.ShortStatusLine | src/runtime/sip_message.cpp:206-223 | a status line that ends after its code has no reason |
| WireFormat.OneWord | src/runtime/sip_message.cpp:206-236 | a first line of one word tells only whether it is a response |
| WireFormat.PacketReads | src/runtime/sip_message.cpp:177-263 | a packet of any padding, line ends and malformed lines is read as its start line, its first 32 well-formed headers in order and its body |
| SipMessage.HmrSipMsg.Find | src/runtime/sip_message.cpp:53-60 | the first live header of the name, ignoring case, or none |
| SipMessage.HmrSipMsg.SetHeader | src/runtime/sip_message.cpp:67-77 | the views read as the plain set after it, or as before when the arena or the header limit refuses; earlier arena bytes keep their values |
| SipMessage.HmrSipMsg.AddHeader | src/runtime/sip_message.cpp:79-89 | likewise for adding a header, including the arena bytes a failed add still uses |
| SipMessage.HmrSipMsg.DeleteHeader | src/runtime/sip_message.cpp:91-101 | every live header of the name becomes a tombstone |
| SipMessage.HmrSipMsg.GetField | src/runtime/sip_message.cpp:142-148 | the user or host of the current request-URI, From or To |
| SipMessage.HmrSipMsg.SetField | src/runtime/sip_message.cpp:150-172 | rewrites that component in the header or as the request-URI override, or changes nothing |
| UriFields.FieldWritten | src/runtime/sip_message.cpp:150-172 | a successful field write leaves the rebuilt value in the one header or the request-URI override and nothing else changed |
| UriFields.FieldSetGet | src/runtime/sip_message.cpp:142-172 | a written field reads back, and each of the other five fields reads as before, the other component of the same URI included |
| UriFields.ReadsByName | src/runtime/sip_message.cpp:119-148 | fields 0 to 5 read user and host of the request-URI or its override, of From and of To, and there is no other |
| UriFields.WritesHeaderField | src/runtime/sip_message.cpp:150-172 | writing fields 2 to 5 changes user or host of From or To and no other header, and the part reads as the text exactly when the text is safe there |
| UriFields.WritesRequestField | src/runtime/sip_message.cpp:150-160 | writing fields 0 and 1 sets the override to the request-URI with that part changed |
| UriFields.WritesWhenItFits | src/runtime/sip_message.cpp:150-172 | a field is written exactly when its header is there and the rebuilt value fits into the 64 KiB arena; else nothing changes |
| SipMessage.HmrSipMsg.Serialize | src/runtime/sip_message.cpp:268-309 | one contiguous arena view equal to the printed message, though its pieces lie in the same arena; null exactly when it does not fit; the message reads the same afterwards |
| SipMessage.PlainStable | src/runtime/sip_message.cpp:67-89 | no view of a message reads differently after the arena grew |
| Message.SetRefinesList | src/runtime/sip_message.cpp:67-77 | success is replace-first-or-append on the list of live headers and nothing else; failure changes nothing |
| Message.AddRefinesList | src/runtime/sip_message.cpp:79-89 | success appends to the list of live headers and nothing else; failure changes nothing |
| Message.DeleteRefinesList | src/runtime/sip_message.cpp:91-101 | deleting removes every pair of the name from the list |
| Message.GetIsListGet | src/runtime/sip_message.cpp:62-65 | reading a header reads the list of live headers |
| Message.SetGet | src/runtime/sip_message.cpp:62-77 | a header that was set reads back under any spelling, every other name reads as before |
| Message.DeleteGet | src/runtime/sip_message.cpp:91-101 | a deleted name reads empty, every other name as before |
| SipRoundTrip.ReadPrinted | src/runtime/sip_message.cpp:177-309 | parsing a printed message recovers the printed start line, also one with a spliced request-URI, the live headers in order, and the body |
| SipRoundTrip.ParsePrintAfterRun | src/runtime/sip_message.cpp:67-309 | parse undoes serialize after any run of clean set, add and delete operations on any packet |
| SipRoundTrip.ParsedIsClean | src/runtime/sip_message.cpp:37-44 | whatever the packet, the parsed names and values are trimmed, names have no colon, nothing holds a newline |
| SipRoundTrip.NormaliseTwice | src/runtime/sip_message.cpp:177-309 | serializing a parsed packet is idempotent for every byte string, malformed ones included |
| Callbacks.HmrContext.Prepare | src/runtime/runtime.cpp:38-48 | the regex table is copied and the slots become empty strings |
| Callbacks.HmrContext.ResetForApply | src/runtime/runtime.cpp:50-58 | arena, match, scratch, logs and reject fields are cleared; slots, variables and regexes survive |
| Callbacks.RtSetHeader | src/runtime/runtime.cpp:80-84 | the plain state changes as the set does, and nothing happens without both handles |
| Callbacks.RtAddHeader | src/runtime/runtime.cpp:86-90 | likewise for add |
| Callbacks.RtDeleteHeader | src/runtime/runtime.cpp:92-95 | likewise for delete |
| Callbacks.RtRegexMatch | src/runtime/runtime.cpp:132-139 | an id out of range matches nothing and keeps the captures; otherwise the captures become those of this match |
| Callbacks.RtMatch | src/runtime/runtime.cpp:141-156 | each match type goes to its matcher, an unknown one to false |
| Callbacks.RtGetCapture | src/runtime/runtime.cpp:161-168 | the group of the last match, empty without a match, past the last group, or for a group that took no part |
| Callbacks.RtStore | src/runtime/runtime.cpp:175-178 | one slot changes, none when out of range |
| Callbacks.RtLoad | src/runtime/runtime.cpp:180-183 | the slot's text, empty when out of range |
| Callbacks.RtUriSet | src/runtime/runtime.cpp:232-237 | the rebuilt value, or the empty string when the arena refuses, with every view of the message intact |
| Callbacks.RtReject | src/runtime/runtime.cpp:246-251 | sets the reject flag, code and reason |
| Numbering.NumberingIsDense | src/interp/interpreter.cpp:78-97 | the ids of a ruleset are exactly those below the published count, one per key, and no pattern is listed twice |
| Numbering.ScanCovers | src/interp/interpreter.cpp:55-59 | running any rule against the scanned tables looks up only keys that are there |
| Numbering.ScanRulesOk | src/interp/interpreter.cpp:343-351 | numbering further rules keeps every earlier number |
| Semantics.RejectedStays | src/interp/interpreter.cpp:346-349 | once a rule has rejected, later rules change nothing |
| ElementLaws.ReadsNamed | include/hmr/codegen/lowering.hpp:52-61 | header-value, uri-display, uri-user, uri-host and uri-port name the value and those parts of it, and no other kind is carried out |
| ElementLaws.ActsOrNot | src/interp/interpreter.cpp:245-257 | an element rule asks its guard about the part it names and acts only if it passes; unsupported kinds do nothing |
| ElementLaws.WritesNamed | src/interp/interpreter.cpp:258-272 | replacing or deleting uri-user, uri-host or uri-port changes that part of the header and no other, and no other header |
| ElementLaws.WritesDisplay | src/interp/interpreter.cpp:258-272 | a uri-display rule changes the display name of a value with `<` and nothing else |
| ElementLaws.WritesRewritten | src/interp/interpreter.cpp:258-272 | what a rewritten part leaves at the arena limit: the header reads empty if the rebuilt value does not fit, and as before if its copy does not |
| ElementLaws.WritesWhole | src/interp/interpreter.cpp:259-266 | a header-value replacement reads back, or leaves the header when it does not fit |
| ElementLaws.DeletesWhole | src/interp/interpreter.cpp:267-272 | a header-value deletion removes the header under every spelling and no other |
| ElementLaws.StoresNamed | src/interp/interpreter.cpp:273-277 | a store keeps the named part in the slot of its name, or of `<rule>.el` without one |
| ElementLaws.RejectsWithReason | src/interp/interpreter.cpp:278-287 | a reject ends the apply with 403 and the value, or the name, as reason |
| RuleLaws.IgnoresCase | src/runtime/matchers.cpp:154-161 | comparing without case is comparing letter by letter, ASCII letters in either case |
| RuleLaws.TextGuard | src/interp/interpreter.cpp:149-184 | case-sensitive, boolean and reference comparisons ask for equality, the insensitive ones for equality up to case, negated by a leading `!` |
| RuleLaws.PatternGuard | src/interp/interpreter.cpp:161-168 | a pattern asks the engine once, without flags, and its captures are recorded either way |
| RuleLaws.AddressGuard | include/hmr/codegen/lowering.hpp:71-78 | an address guard is a subnet test with a `/`, else a range test with a `-`, else equality |
| RuleLaws.DomainGuard | src/interp/interpreter.cpp:169-172 | a domain guard compares domain names |
| RuleLaws.DomainNames | src/runtime/matchers.cpp:227-238 | domain names are equal up to case and one trailing dot on either side; the empty name matches nothing |
| RuleLaws.ReferenceGuard | src/interp/interpreter.cpp:152-156 | an empty match-value, and one that refers to something, always passes |
| RuleLaws.WrittenGuard | src/ast/value.cpp:147-161 | a match-value without a leading reference is tested as its text, negated by a leading `!` |
| RuleLaws.Filters | src/interp/interpreter.cpp:298-311 | a rule runs on messages of its type and, if it names methods, of one of them in either case |
| RuleLaws.LiteralsJoin | src/interp/interpreter.cpp:111-147 | building a literal value segment by segment gives the text of evaluating it at once |
| RuleLaws.LiteralValue | src/ast/value.cpp:138-145 | a literal or quoted value, applied, is its text as written |
| Interp.Interpreter.AddRegex | src/interp/interpreter.cpp:80-87 | first occurrence of pattern and flags, appended when absent, the fallback only for a pattern frozen tables lack |
| Interp.Interpreter.SlotFor | src/interp/interpreter.cpp:89-96 | the slot of the name, the next free one when absent, the fallback only for a name frozen tables lack |
| Interp.Interpreter.EvalValue | src/interp/interpreter.cpp:111-147 | the value's text; only the scratch buffer of the context changes |
| Interp.Interpreter.EvalMatchGuard | src/interp/interpreter.cpp:149-184 | whether the guard passes and the captures it records; a reference match-value always passes |
| Interp.Interpreter.RunHeaderAction | src/interp/interpreter.cpp:188-237 | the action's effect, and that exactly a reject terminates |
| Interp.Interpreter.RunElementRules | src/interp/interpreter.cpp:241-292 | the element rules in order up to a reject, each reading the header afresh |
| Interp.Interpreter.RunHeaderRule | src/interp/interpreter.cpp:296-339 | filters, guard, action and element rules; while scanning, everything is numbered whatever the guards say |
| Interp.Interpreter.Walk | src/interp/interpreter.cpp:343-351 | applying gives the meaning of the ruleset and touches no table; scanning builds exactly the numbering of the ruleset |
| Interp.Interpreter.constructor | src/interp/interpreter.cpp:55-72 | the tables are complete, frozen and published, and no lookup missed |
| Interp.Interpreter.Apply | src/interp/interpreter.cpp:74-76 | verdict and state are the meaning of the ruleset; tables unchanged; no lookup reaches the frozen fallback |
| RuntimeCalls.NumberedKeeps | src/codegen/ir_generator.cpp:114-220 | numbered code overwrites no temporary defined before it; the simulation of header and element actions carries it along |
| Fragments.ValueRuns | src/codegen/ir_generator.cpp:292-328 | the code of a value leaves its text in its operand and the scratch buffer as evaluation does |
| Fragments.HeaderRuns | src/codegen/ir_generator.cpp:372-420 | the code of a header action leaves exactly the state the action means, and every temporary defined before it |
| Fragments.ElementRuns | src/codegen/ir_generator.cpp:439-468 | the code of an element action leaves exactly the state the action means, and every temporary defined before it |
| Fragments.HeaderNumbered | src/codegen/ir_generator.cpp:372-420 | that code reads only operands it was given or temporaries it defined before |
| Fragments.ElementNumbered | src/codegen/ir_generator.cpp:439-468 | likewise for element actions |
| BlockGraph.VerdictUnique | src/codegen/ir_generator.cpp:549-575 | a run has at most one verdict and final state |
| IrCorrect.MatchRuns | src/codegen/ir_generator.cpp:330-370 | the emitted guard goes on exactly when the guard passes, else to the skip block, with the captures recorded either way |
| IrCorrect.MethodsRun | src/codegen/ir_generator.cpp:481-488 | the folded disjunction goes on exactly when one listed method matches without case |
| IrCorrect.ElementEmitted | src/codegen/ir_generator.cpp:422-470 | running the blocks of an element rule ends where the rule's meaning says, on or in the reject block |
| IrCorrect.RuleEmitted | src/codegen/ir_generator.cpp:472-511 | running the blocks of a header rule ends where the rule's meaning says |
| IrCorrect.GraphRuns | src/codegen/ir_generator.cpp:549-575 | for any numbering, the whole graph runs from entry to the verdict and state the rules mean |
| IrCorrect.CompilerCorrect | src/codegen/ir_generator.cpp:549-592 | compiler correctness: from every message and context the graph halts with the meaning of the ruleset, and with nothing else |
| IrWellFormed.CertifiedIsWellFormed | src/codegen/ir_generator.cpp:247-256 | a per-block account of defined registers and an order of the blocks imply that no path reads an undefined register |
| IrWellFormed.RuleSound | src/codegen/ir_generator.cpp:472-511 | emitting a rule keeps every finished block closed, every edge forward and every read defined, and leaves no block waiting but the reject block |
| IrWellFormed.GraphWellFormed | src/codegen/ir_generator.cpp:247-256 | every block ends in its only terminator, the graph is acyclic, and on every path from entry each register is defined before it is read |
| IrWellFormed.CompiledIsWellFormed | src/codegen/ir_generator.cpp:549-592 | so for every ruleset |
| IrGenerator.Emitter.AddRegex | src/codegen/ir_generator.cpp:223-230 | the id the final numbering gives the pattern |
| IrGenerator.Emitter.SlotFor | src/codegen/ir_generator.cpp:231-234 | the id the final numbering gives the name |
| IrGenerator.Emitter.Guard | src/codegen/ir_generator.cpp:247-251 | a fresh block, a conditional branch to it or to the skip block, and emission goes on in the fresh one |
| IrGenerator.Emitter.EmitValue | src/codegen/ir_generator.cpp:292-328 | appends the code of the value and numbers its back-references |
| IrGenerator.Emitter.EmitMatchGuard | src/codegen/ir_generator.cpp:330-370 | appends the guard and numbers its pattern |
| IrGenerator.Emitter.EmitHeaderAction | src/codegen/ir_generator.cpp:372-420 | appends the code of the action and says whether it rejects |
| IrGenerator.Emitter.EmitElementRules | src/codegen/ir_generator.cpp:422-470 | appends the blocks of the element rules in order |
| IrGenerator.Emitter.EmitHeaderRule | src/codegen/ir_generator.cpp:472-511 | appends the blocks of a header rule |
| IrGenerator.Emitter.Generate | src/codegen/ir_generator.cpp:549-592 | the graph is the compiled one and the emitter ends with the ruleset's numbering, slot by slot and pattern by pattern, and publishes its count and patterns |
| CppEmission.ElementBodyRuns | src/codegen/cpp_generator.cpp:374-446 | an element closure returns whether its rule rejected and leaves the state it means |
| CppEmission.RuleBodyRuns | src/codegen/cpp_generator.cpp:448-496 | the closure of a header rule returns whether it rejected and leaves the state it means |
| CppEmission.GeneratedCorrect | src/codegen/cpp_generator.cpp:448-505 | the generated closures, false falling through and true ending the apply, give the meaning of the ruleset and never get stuck |
| CppEmission.GeneratedScoped | src/codegen/cpp_generator.cpp:140-154 | every temporary is declared once, before its uses and in a scope they see |
| CppGenerator.CppEmitter.EmitValue | src/codegen/cpp_generator.cpp:210-263 | appends the statements of the value and numbers its back-references |
| CppGenerator.CppEmitter.EmitHeaderAction | src/codegen/cpp_generator.cpp:305-372 | appends the statements of the action, with the return of a reject |
| CppGenerator.CppEmitter.EmitElementRules | src/codegen/cpp_generator.cpp:374-446 | appends one closure per supported element rule |
| CppGenerator.CppEmitter.EmitHeaderRule | src/codegen/cpp_generator.cpp:448-496 | emits the body of a header rule's closure |
| CppGenerator.CppEmitter.Generate | src/codegen/cpp_generator.cpp:498-505 | the closures are the generated ones and the emitter ends with the ruleset's numbering, slot by slot and pattern by pattern, and publishes its count and patterns |
| CppLiterals.Esc | src/codegen/cpp_generator.cpp:53-77 | the loop escapes byte by byte |
| CppLiterals.EscRoundTrip | src/codegen/cpp_generator.cpp:50-77 | reading an escaped literal as a C++ compiler does gives back every byte string |
| CppLiterals.EscPrintable | src/codegen/cpp_generator.cpp:50-77 | an escaped string is printable ASCII on one line |
| Agreement.BackEndsAgree | src/interp/interpreter.cpp:1-21 | the block graph reaches a verdict and state exactly when the closures return them |
| Agreement.Compare | src/interp/interpreter.cpp:1-21 | built from one ruleset, interpreter, graph and closures give the same outcome on any message, number every slot name and pattern alike, and publish the same tables |
| ValueParser.ScanChain | src/ast/value.cpp:57-82 | the loop reads the dotted chain and its trailing capture index |
| ValueParser.ParseRefAt | src/ast/value.cpp:30-91 | braced, numeric and named references, and how far each reaches |
| ValueParser.Interpolate | src/ast/value.cpp:94-118 | literal runs and references in order |
| ValueParser.SplitConcat | src/ast/value.cpp:121-134 | the fields between the `+` operators |
| ValueParser.Parse | src/ast/value.cpp:138-169 | the parsed value of each mode |
| ValueParser.PlusConcatenates | src/ast/value.cpp:121-169 | the segments of `a+b` are those of `a` followed by those of `b`, for all strings |
| ValueParser.RenderParse | src/ast/value.cpp:30-169 | rendering non-adjacent literals and braced variables and parsing the text gives the list back |
| ValueParser.BackReference | src/ast/value.cpp:57-91 | `$name.$k` parses to one back-reference whose slot key is that of capture `k` of `name` |
| ValueParser.PlainMatchValue | src/ast/value.cpp:146-161 | a match-value without a leading reference is its own pattern, negated exactly by a leading `!` |
| ValueNames.NamedReference | src/ast/value.cpp:57-90 | anywhere in a text, `$NAME` in capitals is a built-in variable and any other `$name` the whole match of a stored rule |
| ValueNames.CaptureReference | src/ast/value.cpp:46-55 | anywhere in a text, `$k` is capture k of the last match |
| ValueNames.ElementCapture | src/ast/value.cpp:57-90 | `$rule.$element.$k` is a back-reference whose slot goes by the rule and the capture |
| ValueNames.OpenBrace | src/ast/value.cpp:35-43 | a brace that is never closed takes the rest of the text for a variable name |
| ValueNames.PlainDollar | src/ast/value.cpp:104-116 | a `$` before anything else stands for itself |
| ValueNames.VariableReads | include/hmr/codegen/lowering.hpp:32-48 | each of the fourteen built-in variables, in any case, reads its own place in the context |
| ValueNames.UnknownReads | include/hmr/codegen/lowering.hpp:46-47 | any other variable reads empty |
| ValueNames.VariableValue | src/interp/interpreter.cpp:111-147 | the new-value `$NAME`, applied, is the value of that variable |
| ValueNames.CaptureValue | src/interp/interpreter.cpp:111-147 | the new-value `$k`, applied, is group k of the last match, or empty |
| CaptureSlots.KeyInjective | include/hmr/codegen/lowering.hpp:113-121 | no two captures of undotted names share a slot key |
| CaptureSlots.StoreFires | src/interp/interpreter.cpp:205-225 | when a pattern store fires, every counted group is in the slot of its key |
| CaptureSlots.RuleKeeps | src/runtime/runtime.cpp:175-178 | a rule that does not store a name leaves all its captures alone |
| CaptureSlots.BackReferenceReads | src/interp/interpreter.cpp:205-225 | after rule `i` matched and stored under `n`, and until `n` is stored again, `$n.$k` reads group `k` of that match |
| ValueNames.StoredValues | src/interp/interpreter.cpp:98-102 | the new-values `$n` and `$n.$k`, applied after rule n matched and stored, read the whole match and group k, until n is stored again |
| Optimizer.DropRepeats | src/optimizer/optimizer.cpp:106-123 | one loop keeps the first of each key and counts the rest |
| Optimizer.EliminateDead | src/optimizer/optimizer.cpp:128-151 | drops rules without effect and idle element rules, counting each dropped rule once |
| Optimizer.SimplifyPatterns | src/optimizer/optimizer.cpp:156-173 | turns plain-literal patterns into equality and counts them |
| Optimizer.MergeRules | src/optimizer/optimizer.cpp:178-218 | drops repeated element rules, then fuses adjacent manipulate rules |
| Optimizer.UniqueRulesPay | src/optimizer/optimizer.cpp:106-123 | deduplication lowers the measure by at least its count, and a zero count means no change |
| Optimizer.LivePays | src/optimizer/optimizer.cpp:128-151 | dead-code elimination lowers the measure by at least its count, and a zero count means no change |
| Optimizer.SimplerPays | src/optimizer/optimizer.cpp:156-173 | simplification lowers the measure by exactly its count, and a zero count means no change |
| Optimizer.FusedPays | src/optimizer/optimizer.cpp:197-216 | fusing lowers the measure by at least its count, and a zero count means no change |
| Optimizer.Round | src/optimizer/optimizer.cpp:254-259 | a round lowers the measure by at least the changes it reports; a round without changes leaves rules no pass would change |
| Optimizer.Optimize | src/optimizer/optimizer.cpp:243-276 | total changes never exceed the starting measure, a limit above it always reaches the fixpoint, and a run that stops on an idle round is settled |
| Optimizer.Analyze | src/optimizer/optimizer.cpp:223-240 | one group per distinct header, holding exactly the positions of its rules in order |
| OptimizerLaws.ElementSigs | src/optimizer/optimizer.cpp:48-62 | on texts free of separators, element signatures agree exactly when kind, action, comparison, match-value, new-value and parameter name do; name and value type play no part |
| OptimizerLaws.HeaderSigs | src/optimizer/optimizer.cpp:64-87 | on such texts, header signatures agree exactly when the header in either case, the other fields and the element rules do |
| OptimizerLaws.DroppedElement | src/optimizer/optimizer.cpp:181-195 | an element rule dropped as a repeat agrees in those fields with an earlier one that is kept; an add is never dropped |
| OptimizerLaws.DroppedRule | src/optimizer/optimizer.cpp:106-123 | a header rule dropped as a repeat agrees with an earlier one that is kept; an add is never dropped |
| OptimizerLaws.PlainPatterns | src/optimizer/optimizer.cpp:91-100 | a pattern counts as plain exactly when it is a text without special characters, with or without an anchor at either end |
| OptimizerLaws.SimplifiedGuard | src/optimizer/optimizer.cpp:156-167 | the simplified guard asks for equality with that text |
| OptimizerLaws.OtherGuards | src/optimizer/optimizer.cpp:156-167 | every other guard is left as it is |
| OptimizerLaws.DeadRules | src/optimizer/optimizer.cpp:28-45 | a rule is dropped exactly when it has no action, or names no header but has an action other than sip-manip, log or reject |
| OptimizerLaws.CleaningPreserves | src/optimizer/optimizer.cpp:140-146 | dropping idle element rules changes neither meaning nor numbering, unless it lets the rule set its header |
| OptimizerLaws.CleaningSets | src/optimizer/optimizer.cpp:140-146 | dropping idle element rules lets a rule set its header exactly when it has a new-value and all its element rules are idle |
| OptimizerLaws.CleaningCanSet | src/optimizer/optimizer.cpp:140-146 | in that case the meaning does change: a rule held back by idle element rules alone sets its header once they are dropped |
| OptimizerLaws.FusesExactly | src/optimizer/optimizer.cpp:202-209 | two rules are fused exactly when both manipulate one header, in either case, under equal guards and filters |
| Fusion.GuardStands | src/interp/interpreter.cpp:324-328 | a guard evaluated again after element rules that write no header, and match no pattern if the guard is one, decides alike and records nothing new |
| Fusion.FusedRule | src/optimizer/optimizer.cpp:197-216 | one fused rule does what the two rules do one after the other, and numbers the same keys in the same order, also for rules under a guard the first one leaves as it was |
| Fusion.FuseAnywhere | src/optimizer/optimizer.cpp:197-216 | fusing two adjacent safe rules anywhere in a ruleset changes neither numbering nor outcome, when the header-level stores behind them are named |
| Fusion.FusingPreserves | src/optimizer/optimizer.cpp:197-216 | the whole fusing half of the pass preserves meaning when each pair it fuses is safe and no unnamed header-level store stands behind a fused pair |
| Fusion.SameEffectMeaning | src/interp/interpreter.cpp:343-351 | rulesets of the same effect have the same published numbering and the same outcome on every message and context |
| FusionLimits.GuardNeeded | src/optimizer/optimizer.cpp:197-216 | two rules under the same literal match-value, of which the first overwrites the header: the code fuses them, and the second element list then runs where its guard would have failed |
| FusionLimits.CapturesNeeded | src/optimizer/optimizer.cpp:197-216 | two rules under the same pattern, of which the first matches another pattern in an element rule: fused, the second reads the captures of that one |
| FusionLimits.SpellingNeeded | src/optimizer/optimizer.cpp:197-216 | two rules that spell the header differently: fused, an absent header is added under the other spelling |
| FusionLimits.StoreNamesNeeded | src/optimizer/optimizer.cpp:197-216 | rules of different names, the second with an unnamed element store: fused, the store goes to another slot name |
| FusionLimits.FirstSetNeeded | src/optimizer/optimizer.cpp:197-216 | a first rule that sets the header by its new-value and a second with element rules: fused, the set is gone |
| FusionLimits.SecondSetNeeded | src/optimizer/optimizer.cpp:197-216 | a second rule that sets the header by its new-value: fused, the set is gone |
| FusionLimits.NamedBehindNeeded | src/optimizer/optimizer.cpp:197-216 | an unnamed header-level store behind a fused pair changes its slot name, since that counts rules |
| HotSwap.RunKeeps | src/module/module_manager.cpp:42-80 | after any schedule every reference count is the number of holders |
| HotSwap.ClosedWhenUnheld | src/module/module_manager.cpp:22-24 | after any schedule a handle was closed at most once, and exactly when neither the manager, nor a snapshot, nor a load still has it |
| HotSwap.OnlyPublishSwaps | include/hmr/module/module_manager.hpp:89-94 | only a publish, or the end of the manager, changes the current module |
| HotSwap.FailedLoad | src/module/module_manager.cpp:55-68 | a load that fails never published |
| SwapHistory.StateTells | include/hmr/module/module_manager.hpp:89-101 | after any schedule the current module is the one published last, each load has the handle it opened, every snapshot was handed out and not yet released, and each load that ended reported its failure or success in order |
| SwapHistory.StepsPossible | src/module/module_manager.cpp:42-80 | in every state a thread can take exactly the steps of its stage, and readers can always take a snapshot and release what they hold |
| HotSwap.FirstLoadedIff | include/hmr/module/module_manager.hpp:89-94 | over every schedule of any number of writers: the first success reports Loaded and every later one Reloaded, if and only if each successful load read after a publish exactly when it notifies after another notification |
| HotSwap.OneAtATimeReports | include/hmr/module/module_manager.hpp:89-94 | loads that do not overlap, by whichever threads, keep that law |
| HotSwap.OneWriterReports | include/hmr/module/module_manager.hpp:89-94 | with one writer the first success reports Loaded and every later one Reloaded |
| HotSwap.ReportsWhatItRead | src/module/module_manager.cpp:70-78 | with any number of writers a load reports Loaded exactly when no module was current when it read |
| HotSwap.TwoWritersBothLoaded | src/module/module_manager.cpp:70-78 | a schedule of two writers in which both report Loaded |
| HotSwap.ObserverList.Subscribe | src/module/module_manager.cpp:82-88 | registering twice is registering once |
| HotSwap.ObserverList.Unsubscribe | src/module/module_manager.cpp:90-98 | removes the observer and keeps the order of the others |

## Left out

- LLVM itself: its passes, object emission and linking; the model ends at the emitted block graph, with a returned string as one register instead of a pointer and a length.
- The textual form of the generated C++: statements are modelled as syntax, with string literals spelled and read back byte for byte; comments, indentation and enum spellings are not modelled.
- dlopen and dlsym: each successful open is a fresh handle; the failures after it are one step.
- The grammar and its visitor: the model starts from the ruleset.
- Regex matching: the engine is any function; that an invalid pattern throws while a context is prepared is not modelled.
- The interning of literals, in the interpreter's pool and in both generators: literals are values here, so the promise that the pool does not grow across applies is not stated.
- Widths: lengths, counts and capture indices are unbounded naturals, the parsed status code apart, which wraps at 32 bits as in the code.
- UriDisplay.SetGetDisplay: covers values with `<`; writing a display name without one has only `UriDisplay.InsertsDisplay`, since it changes how the value is cut.
- The end-of-address offset of a parsed URI, which nothing reads.
- Null against empty views: the two read the same text; where the code tells them apart, in rebuilding a URI, presence is modelled, elsewhere not.
- Whole-optimizer meaning: not true of the code, since simplification turns a search into an equality, deduplication ignores names and the rules in between, and a dead rule may hold element rules; fusing and dropping idle element rules are proved to preserve meaning under their conditions.
- Fusion.FusingPreserves: asks that each pair the pass fuses is safe, since the code fuses others too and changes what they mean (`FusionLimits`); each condition is needed, but pairs that break one without effect, as behind a rule that always rejects, are not covered.
- The thread-level atomicity of the module pointer: its loads and stores are single steps of the schedule; observers called during a notify are not modelled.
- The command line, benchmarks, diagnostics and the C ABI layout.
