# CHIMERA in Dafny

CHIMERA is a local security organism: a Python core supervises a handful of native modules and
relays between them. This project models its six stateful cores and proves what they promise, for
every input and over every run.

- **The VAULT policy language** (`VaultAst`, `VaultLexer`, `VaultGrammar`, `VaultParser`,
  `VaultParserCorrect`, `VaultPrinter`, `VaultLayout`, `VaultEvaluator`). The lexer and the
  recursive-descent parser are objects with a cursor, proved against functions on text and tokens;
  those are proved to accept exactly the grammar, which is unambiguous and reaches down to the
  characters, and to invert a printer that writes as few parentheses as possible. The three-valued
  evaluator is reduced to two-valued logic plus a type check, and the hour-by-hour projection to a
  closed form of the clock.
- **The VAULT runtime** (`VaultHex`, `VaultRuntime`, `VaultRuns`, `VaultSealing`, `VaultCommands`,
  `VaultWitnesses`, `VaultCutting`, `VaultLongPolicies`). The single open vault, its relock deadline,
  its mount, and the registry, keychain and sealed-file indexes that outlive it. Ciphers and the
  outside world are parameters: of the cipher only that opening undoes sealing, of the world any
  answer to any call.
- **The TETHER monitor** (`Tether`, `TetherEwma`, `TetherPresence`, `TetherClassifier`,
  `TetherLadder`, `TetherMonitor`, `TetherRuns`, `TetherHistory`). Each component is a class over
  fields, and each is shown to be a function of the whole sample history; the composition is then
  judged by the events it logs.
- **The module lifecycle** (`Modules`, `Lifecycle`, `Registry`, `Supervisor`, `LifecycleRuns`,
  `Liveness`, `RestartBudget`, `RestartClock`, `Waves`). The nine-state machine with liveness and a
  restart budget, the registry that drives it, the supervisor's restarts and its startup waves. Runs
  contain every operation and, beside them, any transition that anything else might ask for.
- **The core's broker and router** (`Broker`, `Router`). A bounded drop-oldest queue with a
  separate overflow notice, and request/reply correlation over every interleaving of the steps
  between two awaits.
- **Two byte-level codecs** (`Base64Url`, `Base64Canonical`, `LineReader`). The base64url codec of
  RFC 4648 section 5 over a 32-bit accumulator, and the newline-delimited reader over one 16384-byte
  buffer.

Code that changes state in place is modelled by classes and methods whose postconditions equate the
new state with a function of the old one; the properties are lemmas about that function. Numbers
are mathematical integers and reals, text is a sequence of characters, and a C string ends at its
terminator.

Where the code and its documentation differ, the model follows the code:

- The evaluator's header (`chimera/modules/vault/src/evaluator.c:4-8`) says that a predicate on a
  module that is not running is false unless the policy opts in, and `vault.h` that such a value
  denies. In the code a predicate with `!=` is then true (`VaultEvaluator.UnknownModuleOpens`), and
  the negation of one with `==` or `in` is too (`VaultEvaluator.NegationOpens`).
  `VaultEvaluator.GuardedFailsClosed` gives the condition on whole policies, by polarity, under which
  an unknown module never decides for opening.
- The projection stops after 168 hours. For policies over a set of variables that cap is exact at any
  time if and only if the set holds neither the day of the month nor the uptime
  (`VaultEvaluator.CapIffWeekly`). `VaultEvaluator.HorizonIsComplete` computes from a policy's literals
  how far a search would have to go to be complete for every policy.
- The payload of an overflow notice reports the count at the time the slot was filled, which is
  always one. It understates the loss if and only if another event is dropped while it is pending
  (`Broker.NoticeReportsOneDrop`), as in every burst that outgrows the buffer by two
  (`Broker.BurstUnderstates`).
- The rolling-hour cap on restarts depends on the clock. On a sequence of clock readings it holds in
  every run if and only if it is at most one, or the clock never goes an hour past one of its
  readings and then comes back to within an hour of it (`RestartClock.CapIffClock`).
- A registry file above 65535 bytes, or a sealed-file index above 8 MiB less one, reads back as
  empty. Then create forgets the other vaults, add_file forgets the vault's earlier files, and
  policy.update replaces the policy over them: exactly then, by `VaultSealing.CreateKeepsIffFits`,
  `VaultSealing.AddKeepsIffFits` and `VaultSealing.UpdateRefusesIffFits`. Any 65 files of 64 KiB
  added to a new vault get there (`VaultWitnesses.FullIndexLosesFiles`). So the theorem that nothing is
  orphaned asks of a vault's own index, and of nothing else, that it is read back whole when
  add_file or policy.update names that vault.
- A failed unlock of the vault that is already open takes its mount but leaves it open.
  `VaultRuns.MountIsLostByReunlock` says from the state before the step when this happens, and that
  nothing else does it; `VaultWitnesses.MountLost` is a run that gets there.
- A file whose path ends in a slash, `.` or `..` can be added to a vault. As long as its files are read
  back whole, no later unlock of that vault goes through (`VaultSealing.NeverUnlockedAgain`).
- Of a stored policy only the first 4095 characters are decided on and enter the key, although
  all of it was validated. What is decided on is the validated policy if and only if that part holds
  all tokens of the text (`VaultLongPolicies.KeptIsWholeIffTokens`); then an unlock obeys the whole
  policy (`VaultLongPolicies.UnlockObeysPolicy`). Otherwise a vault can be unlocked while its policy
  `e and f` does not hold (`VaultLongPolicies.LongPolicyIsCut`, `VaultLongPolicies.LongPolicyUnlocks`).
- The router resolves a call by its internal id whoever sent the reply (`Router.AnyoneResolves`); its
  owner did if and only if no other connection's reply came in while the call was open
  (`Router.OwnersResolveIffNoForeignReply`).
- The base64url decoder also accepts texts that the encoder does not write.
  `Base64Canonical.ReencodesIffCanonical` says which.

`dafny verify dfyconfig.toml` verifies the project.

## Model

| member | source | states |
|---|---|---|
| VaultLexer.LiteralValue | chimera/modules/vault/src/lexer.c:41-165 | a numeric literal scanned digit by digit has the decimal value its digits denote |
| VaultLexer.ScanPointed | chimera/modules/vault/src/lexer.c:41-165 | digits, a point and digits are one number token whose value is that decimal, whatever follows |
| VaultLexer.ScanInteger | chimera/modules/vault/src/lexer.c:41-165 | digits not followed by a point and a digit are a number token of their own |
| VaultLexer.Lexer.NextToken | chimera/modules/vault/src/lexer.c:41-165 | the lexer object yields the next token of the remaining text and moves exactly past it |
| VaultParser.ParseText | chimera/modules/vault/src/parser.c:379-430 | the parser object, with its lookahead and failure flag, returns the functional parse of every text, and None on exactly the same texts |
| VaultParser.Parser.ParsePredicateNode | chimera/modules/vault/src/parser.c:217-243 | one predicate is read from the rest of the tokens, or the parser fails |
| VaultParser.Parser.ParseListValue | chimera/modules/vault/src/parser.c:107-207 | the list loop collects the items up to the closing bracket, or fails |
| VaultParser.Parser.ParseRangeValue | chimera/modules/vault/src/parser.c:107-207 | the bounds of `between`, whose `and` is not the connective |
| VaultParser.Parser.ParseAndNode | chimera/modules/vault/src/parser.c:283-308 | the loop over `and` builds the left-associated conjunction |
| VaultParser.Parser.ParseExpressionNode | chimera/modules/vault/src/parser.c:310-335 | the loop over `or` builds the left-associated disjunction |
| VaultParser.Parser.ParseRelockBlock | chimera/modules/vault/src/parser.c:339-369 | the optional relock block, in whole seconds |
| VaultParserCorrect.NamesRoundTrip | chimera/modules/vault/src/parser.c:67-92 | variable and operator keywords are read back as what they stand for, and none is a connective |
| VaultParserCorrect.ParsesTheGrammar | chimera/modules/vault/src/parser.c:4-12 | parsing returns a policy if and only if the grammar derives that policy from the text's tokens |
| VaultParserCorrect.GrammarIsUnambiguous | chimera/modules/vault/src/parser.c:245-335 | no token sequence has two readings: precedence and left association are fixed |
| VaultLayout.LexesIffLaidOut | chimera/modules/vault/src/lexer.c:10-165 | a text is read without an error as exactly the tokens it is laid out of, character by character: gaps of space, tab, carriage return and newline only, words, numerals, strings and symbols, and a gap wherever two of them would run together |
| VaultLayout.ParsesIffLaidOut | chimera/modules/vault/src/parser.c:379-430 | a text parses to a policy if and only if it is laid out of tokens from which the grammar derives that policy |
| VaultLayout.AnyLayoutParses | chimera/modules/vault/src/lexer.c:41-44 | a policy's tokens in any spelling, with any nonempty gaps between them, are read back as the policy |
| VaultLayout.StrayIsRefused | chimera/modules/vault/src/lexer.c:104-165 | a character that makes no gap and starts no token is never skipped: a text with one after a gap is no policy |
| VaultPrinter.TokensOfRender | chimera/modules/vault/src/lexer.c:41-165 | printed tokens are lexed back as themselves |
| VaultPrinter.RoundTrip | chimera/modules/vault/src/parser.c:379-430 | printing any buildable policy and parsing the text returns the same policy |
| VaultPrinter.PrintIsMinimal | chimera/modules/vault/src/parser.c:245-335 | no text of the same tree has fewer parentheses than the printed one |
| VaultPrinter.ParsedIsBuildable | chimera/modules/vault/src/parser.c:107-243 | whatever the parser returns is in the round trip's domain |
| VaultPrinter.ParsedIffBuildable | chimera/modules/vault/src/parser.c:379-430 | a policy is some text's parse if and only if it is buildable |
| VaultPrinter.DecimalsAreLiterals | chimera/modules/vault/src/lexer.c:41-165 | every natural plus a proper fraction over a power of ten can be written as a literal |
| VaultEvaluator.IsListed | chimera/modules/vault/src/evaluator.c:118-144 | the loop over a list finds a word if and only if it is there |
| VaultEvaluator.ErrorIffLeafErrs | chimera/modules/vault/src/evaluator.c:166-198 | evaluation errs if and only if some leaf is ill-typed or its signal is missing, whatever the connectives |
| VaultEvaluator.ErrorIgnoresTheClock | chimera/modules/vault/src/evaluator.c:93-198 | an error depends on the tree, the oracle and the SSID only, so the projection cannot meet a new one |
| VaultEvaluator.EvalIs | chimera/modules/vault/src/evaluator.c:93-198 | the three-valued walk is the two-valued meaning, closed by a type check of every leaf |
| VaultEvaluator.AdvanceHour | chimera/modules/vault/src/evaluator.c:217-225 | one clock step in place |
| VaultEvaluator.AfterIs | chimera/modules/vault/src/evaluator.c:217-225 | the closed form of any number of clock steps |
| VaultEvaluator.MidnightTurnsTheDay | chimera/modules/vault/src/evaluator.c:217-225 | one hour later is the next hour, and after 23 the first hour of the next day, weekdays from Monday round to Monday |
| VaultEvaluator.Decide | chimera/modules/vault/src/evaluator.c:227-259 | ALLOW if true now; DEFER by the first true hour within the cap; DENY otherwise, and on any error |
| VaultEvaluator.Project | chimera/modules/vault/src/evaluator.c:241-258 | the loop finds the least projected hour that opens, if there is one |
| VaultEvaluator.DecisionIsUnique | chimera/modules/vault/src/evaluator.c:227-259 | exactly one decision is right |
| VaultEvaluator.WeekRepeats | chimera/modules/vault/src/evaluator.c:208-225 | 168 hours bring a weekly policy back to the same value |
| VaultEvaluator.CapIsComplete | chimera/modules/vault/src/evaluator.c:208-259 | a weekly policy is denied if and only if no hour, however far ahead, makes it true |
| VaultEvaluator.CapIffWeekly | chimera/modules/vault/src/evaluator.c:208-259 | at every valid context, the fixed cap is exact for all policies over a set of variables if and only if day of month and uptime are not among them |
| VaultEvaluator.DenyIffClosedWithinCap | chimera/modules/vault/src/evaluator.c:227-259 | DENY is decided if and only if no hour within the cap opens, errors included |
| VaultEvaluator.HorizonIsComplete | chimera/modules/vault/src/evaluator.c:208-259 | every policy that ever opens does so within a horizon computed from its literals and the clock: one week past the last of them |
| VaultEvaluator.UnavailableIsError | chimera/modules/vault/src/evaluator.c:64-89 | a policy that mentions an unknown oracle score or a missing SSID errs |
| VaultEvaluator.UnknownModuleOpens | chimera/modules/vault/src/evaluator.c:36-54 | without an opt-in, an unknown mode makes a predicate true if and only if its operator is `!=` on a word |
| VaultEvaluator.GuardIsExact | chimera/modules/vault/src/evaluator.c:36-54 | for one predicate on a module that is down, plain or negated, the polarity guard holds if and only if it does not open |
| VaultEvaluator.GuardedFailsClosed | chimera/modules/vault/include/vault.h:6-8 | a policy whose predicates on modules that are down are all guarded by polarity opens only if it would open in every state of those modules |
| VaultEvaluator.NegationOpens | chimera/modules/vault/include/vault.h:6-8 | without the guard it may open: a negated predicate without `!=` and without an opt-in |
| VaultEvaluator.PolicyDecide | chimera/modules/vault/src/policy.c:22-32 | an unparseable text is denied, a parseable one decided |
| VaultEvaluator.PolicyEvaluate | chimera/modules/vault/src/policy.c:11-20 | allowed if and only if the text parses and its expression is true now |
| VaultHex.HexEncode | chimera/modules/vault/src/commands.c:419-431 | the two-digit encoding of every byte, in order |
| VaultHex.HexDecode | chimera/modules/vault/src/commands.c:277-292 | the bytes of the pairs as strtol reads them, or -1 on an odd length, no room or a bad pair |
| VaultHex.RoundTrip | chimera/modules/vault/src/commands.c:277-292 | what was encoded decodes to itself, and fails exactly for lack of room |
| VaultCommands.BytesAreOfPairs | chimera/modules/vault/src/commands.c:277-292 | each decoded byte is that of its pair of characters: two digits, or one after a space or a sign, a minus wrapping |
| VaultCommands.EncodedIsLowerCase | chimera/modules/vault/src/commands.c:419-431 | encoding writes lower-case digits |
| VaultRuntime.Runtime.Tick | chimera/modules/vault/src/commands.c:64-70 | from the deadline on, mount, open vault and deadline are cleared together; before it nothing changes |
| VaultRuntime.Runtime.FindPolicy | chimera/modules/vault/src/commands.c:228-243 | the start of the policy of the first entry with that id in the registry as it reads back |
| VaultRuntime.Runtime.DeriveKey | chimera/modules/vault/src/commands.c:261-275 | the key of master secret, policy text and vault id; the secret is made if there is none |
| VaultRuntime.Runtime.Create | chimera/modules/vault/src/commands.c:166-207 | the keychain secret first, then the registry entry, with every refusal |
| VaultRuntime.Runtime.OpenEntry | chimera/modules/vault/src/commands.c:302-324 | a sealed entry's plaintext, or nothing if a field is missing, malformed, too short or does not verify |
| VaultRuntime.Runtime.OpenAll | chimera/modules/vault/src/commands.c:298-338 | all entries go into the mount in order, or the first bad one stops the loop |
| VaultRuntime.Runtime.Unlock | chimera/modules/vault/src/commands.c:344-399 | another open vault, an unknown one, the policy's verdict, then key, mount and files, in that order |
| VaultRuntime.Runtime.Lock | chimera/modules/vault/src/commands.c:403-417 | clears mount, open vault and deadline if the named vault, or no name, matches the open one |
| VaultRuntime.Runtime.AddFile | chimera/modules/vault/src/commands.c:478-548 | seals the first 64 KiB under the re-derived key and appends to the index as it reads back |
| VaultRuntime.Runtime.Delete | chimera/modules/vault/src/commands.c:553-597 | registry entry, secret, mount and index, and closes the vault if it is the open one |
| VaultRuntime.Runtime.UpdatePolicy | chimera/modules/vault/src/commands.c:604-663 | replaces the policy of a vault whose index reads back empty, and closes it |
| VaultRuns.RunsKeepOneVault | chimera/modules/vault/src/commands.c:344-417 | in every run at most one vault is mounted, it is the open one, and a vault is open if and only if a deadline is armed, 900 seconds after the last unlock |
| VaultRuns.TickRelocks | chimera/modules/vault/src/commands.c:64-70 | a tick 900 seconds or more after the last unlock leaves nothing open or mounted; an earlier one changes nothing; what is stored stays |
| VaultRuns.MountIsLostByReunlock | chimera/modules/vault/src/commands.c:376-383 | a mounted vault is left open without a mount if and only if the step unlocks it again, allowed and supported, while some sealed file does not open into the mount |
| VaultRuns.UnlockObeysKept | chimera/modules/vault/src/commands.c:353-360 | a vault is unlocked only if what is kept of its policy parses and is true now |
| VaultCutting.CutIsSameIffTokens | chimera/modules/vault/src/parser.c:379-430 | any cut of a policy's text parses to the same policy if and only if it has the same tokens |
| VaultLongPolicies.KeptIsWholeIffTokens | chimera/modules/vault/src/commands.c:227-243 | the policy decided on is the one validated if and only if the buffer holds all tokens of its text |
| VaultLongPolicies.UnlockObeysPolicy | chimera/modules/vault/src/commands.c:353-360 | a vault whose policy is kept whole is unlocked only while that policy holds |
| VaultLongPolicies.LongPolicyIsCut | chimera/modules/vault/src/commands.c:227-243 | for every condition e that fits the buffer and every f there is a text that parses as `e and f` and that the lookup cuts to one that parses as e |
| VaultLongPolicies.LongPolicyUnlocks | chimera/modules/vault/src/commands.c:344-399 | a vault created with such a text is unlocked while e holds and `e and f` does not |
| VaultSealing.DeleteUndoesCreate | chimera/modules/vault/src/commands.c:166-207 | a created vault is registered under its policy, and deleting it returns the whole state to what it was |
| VaultSealing.SealedHolds | chimera/modules/vault/src/commands.c:503-535 | a freshly sealed entry, through hex and the index, opens to the first 65536 bytes of what was added, or all of it |
| VaultSealing.NothingIsOrphaned | chimera/modules/vault/src/commands.c:599-663 | after any run of commands, every sealed file of a registered vault opens under the key of its current policy to what was added, in order, none missing, if its own index was read back whole whenever it or the policy was replaced |
| VaultSealing.UnlockRestores | chimera/modules/vault/src/commands.c:294-392 | an unlock that is allowed and supported gives back every file that was added if and only if every path ends in a name |
| VaultSealing.ReunlockTakesTheMount | chimera/modules/vault/src/commands.c:376-383 | over runs, unlocking the open and mounted vault again takes its mount if and only if some added path does not end in a name |
| VaultSealing.NeverUnlockedAgain | chimera/modules/vault/src/commands.c:294-392 | once such a path was added, no later unlock of the vault goes through while its files are read back whole, whatever the world answers and the policy decides |
| VaultWitnesses.MountLost | chimera/modules/vault/src/commands.c:376-383 | a run of four commands that leaves a vault open without its mount |
| VaultSealing.AddKeepsIffFits | chimera/modules/vault/src/commands.c:520-531 | add_file keeps a vault's earlier files if and only if its index is read back whole; otherwise the new one is the only one left |
| VaultWitnesses.FullIndexLosesFiles | chimera/modules/vault/src/commands.c:520-531 | of any 65 files of 64 KiB or more added to a new vault at least one is lost |
| VaultSealing.UpdateRefusesIffFits | chimera/modules/vault/src/commands.c:634-647 | policy.update refuses a vault with sealed files if and only if their index fits the read buffer |
| VaultSealing.CreateKeepsIffFits | chimera/modules/vault/src/commands.c:193-199 | create keeps the registry's earlier entries if and only if the registry fits the read buffer |
| VaultCommands.PolicyIsStart | chimera/modules/vault/src/commands.c:227-243 | the policy decided on is the first 4095 characters, or all, of the first entry with that id |
| VaultCommands.DerivingIs | chimera/modules/vault/src/commands.c:261-275 | a vault's secret is made once and kept, and its key comes from secret, policy and id |
| VaultCommands.OpenedIff | chimera/modules/vault/src/commands.c:302-330 | an entry reaches the cipher if and only if its nonce is 24 bytes and its ciphertext 16 or more in hexadecimal; otherwise it is refused |
| VaultCommands.OpenedIntoIs | chimera/modules/vault/src/commands.c:318-334 | an opened entry is mounted under the last part of its name, or as `file` without one, unless that part is no name |
| VaultCommands.CreateIs | chimera/modules/vault/src/commands.c:166-207 | what create answers, and the entry and secret of the vault it makes |
| VaultCommands.UnlockIs | chimera/modules/vault/src/commands.c:344-399 | what unlock answers, its refusals in order |
| VaultCommands.UnlockOpens | chimera/modules/vault/src/commands.c:376-392 | an unlock that goes through opens and mounts the vault for 900 seconds and counts its files; any other opens nothing |
| VaultCommands.LockCloses | chimera/modules/vault/src/commands.c:403-417 | over runs, a lock that names the open vault or none leaves nothing open and nothing mounted and all that is stored; any other changes nothing |
| VaultCommands.LockUndoesUnlock | chimera/modules/vault/src/commands.c:344-417 | over runs, a lock after an unlock gives back the state before it, but for a secret that had to be made |
| VaultCommands.AddIs | chimera/modules/vault/src/commands.c:478-548 | what add_file answers, and that it changes the vault's own index only |
| VaultCommands.DeleteIs | chimera/modules/vault/src/commands.c:553-597 | what delete answers and removes |
| VaultCommands.UpdateIs | chimera/modules/vault/src/commands.c:604-663 | what policy.update answers and changes: one policy, and it closes that vault |
| VaultCommands.UnlockReturnsFile | chimera/modules/vault/src/commands.c:294-392 | an unlock gives back every file that was added, unless a later one has its name: a prefix of it, all of it up to 65536 bytes |
| TetherEwma.Ewma.Update | chimera/modules/tether/src/ewma.cpp:10-18 | the first sample is taken as it is, later ones are blended in |
| TetherEwma.SmoothedStaysInRange | chimera/modules/tether/src/ewma.cpp:10-18 | the smoothed value never leaves the range of the samples |
| TetherEwma.SmoothedIsWeightedSum | chimera/modules/tether/src/ewma.cpp:10-18 | the smoothed value of s[0..n] is (1 - alpha)^n * s[0] plus the sum over i >= 1 of alpha * (1 - alpha)^(n - i) * s[i] |
| TetherPresence.PresenceMachine.TickOnce | chimera/modules/tether/src/presence.cpp:11-46 | one step of the presence machine and its two counters |
| TetherPresence.RunIsHistory | chimera/modules/tether/src/presence.cpp:11-46 | state and counters are functions of the whole history: absent if and only if a full run of misses was not followed by a full run of near ticks; the counters are the trailing runs |
| TetherClassifier.DisappearanceClassifier.MaxRecent | chimera/modules/tether/src/classify.cpp:25-60 | the loop over the filled slots finds their maximum |
| TetherClassifier.DisappearanceClassifier.Observe | chimera/modules/tether/src/classify.cpp:25-60 | one observation written into the ring, or one loss judged |
| TetherClassifier.RunIsHistory | chimera/modules/tether/src/classify.cpp:25-60 | the ring holds exactly the last four seen values, and the verdict is the one the history fixes at the first missed tick |
| TetherClassifier.VerdictIsFixedAtLoss | chimera/modules/tether/src/classify.cpp:25-60 | further missed ticks do not change the verdict |
| Tether.EffectiveGrace | chimera/modules/tether/include/tether.hpp:55-57 | unchanged when not heightened, else half, rounded toward zero |
| TetherLadder.EscalationLadder.Start | chimera/modules/tether/src/escalation.cpp:14-20 | the ladder starts over at the absence time plus the suspicion delay of an instant drop |
| TetherLadder.EscalationLadder.EvaluateAt | chimera/modules/tether/src/escalation.cpp:22-54 | the stage due, whether it is new, and the time to the next one |
| TetherLadder.EscalationLadder.Stop | chimera/modules/tether/src/escalation.cpp:56-59 | recovery makes the ladder inactive |
| TetherLadder.DueIsMonotone | chimera/modules/tether/src/escalation.cpp:22-54 | the stage due never falls with time, and none is due early or unarmed |
| TetherLadder.ShorterGraceIsAhead | chimera/modules/tether/src/escalation.cpp:22-54 | a shorter grace is never behind |
| TetherLadder.SuspicionOnlyDelays | chimera/modules/tether/src/escalation.cpp:14-54 | over any sequence of evaluations, an instant drop decides what a fade decided earlier by the suspicion delay |
| TetherLadder.SuspicionNeverSpeeds | chimera/modules/tether/src/escalation.cpp:14-54 | so it is never ahead of a fade at the same time |
| TetherMonitor.Monitor.Tick | chimera/modules/tether/src/monitor.cpp:15-88 | one composed step over the four objects, and the events it emits, in order |
| TetherMonitor.Monitor.SetHeightened | chimera/modules/tether/src/monitor.cpp:95-95 | the flag is only stored; it is read at the next absence |
| TetherRuns.RunsAreLegal | chimera/modules/tether/src/monitor.cpp:15-88 | every run with a nondecreasing clock logs a legal sequence of events that shows the monitor's state |
| TetherRuns.EscalationsAreDue | chimera/modules/tether/src/monitor.cpp:30-88 | every escalation belongs to an absence, exceeds the stages before it, comes no earlier than absence, suspicion delay, grace and gaps allow, and is L3 only if armed at the ABSENT tick |
| TetherRuns.EscalationsAreNotLate | chimera/modules/tether/src/monitor.cpp:30-88 | after every tick in an absence, the last stage requested in it is exactly the one due at that tick by the settings in force when it began |
| TetherRuns.RecoveriesReportTheStage | chimera/modules/tether/src/monitor.cpp:58-70 | every RECOVERED ends an absence and reports the last stage requested in it |
| TetherRuns.AbsencesAlternate | chimera/modules/tether/src/monitor.cpp:30-70 | between two ABSENT events there is a RECOVERED |
| TetherHistory.SensingIsHistory | chimera/modules/tether/src/monitor.cpp:18-28 | inside the monitor the smoothed value is the weighted sum of the samples that were seen, and the presence machine and the classifier are those components run over it |
| TetherHistory.AbsentIffHistory | chimera/modules/tether/src/monitor.cpp:18-28 | the monitor is absent if and only if the samples are an absence |
| TetherHistory.TickEventsAreHistory | chimera/modules/tether/src/monitor.cpp:30-70 | ABSENT and RECOVERED are emitted exactly at the ticks where the history turns, with the history's verdict |
| TetherHistory.TickEmits | chimera/modules/tether/src/monitor.cpp:15-88 | every tick emits exactly the event of the turn that the history takes, with its smoothed value, counter and verdict, and the escalation if the stage changes, with the time to the next |
| TetherHistory.HeighteningShortens | chimera/modules/tether/include/tether.hpp:55-57 | heightening shortens a grace if and only if it is not negative |
| TetherHistory.HeightenedIsAhead | chimera/modules/tether/src/monitor.cpp:50-57 | on the same samples a heightened monitor has the same presence and never a lower stage |
| Lifecycle.LifecycleManager.Track | chimera/core/lifecycle.py:145-153 | a new record for a name that is neither empty nor tracked |
| Lifecycle.LifecycleManager.Transition | chimera/core/lifecycle.py:161-182 | an allowed edge moves the state and publishes one event; any other request changes nothing |
| Lifecycle.LifecycleManager.Heartbeat | chimera/core/lifecycle.py:186-188 | the time of the last heartbeat |
| Lifecycle.LifecycleManager.SweepOnce | chimera/core/lifecycle.py:190-207 | every live record is moved to the state its age demands, with one event for each change, and no transition is refused |
| Lifecycle.LifecycleManager.Restart | chimera/core/lifecycle.py:225-243 | prunes the hour's list, then records and restarts, or gives up when the budget is spent |
| Lifecycle.SweptIsAllowed | chimera/core/lifecycle.py:190-207 | every transition that a sweep asks for is an allowed edge |
| Lifecycle.AllowedIs | chimera/core/lifecycle.py:56-75 | the sixteen allowed edges, one by one |
| Lifecycle.SweepIsIdempotent | chimera/core/lifecycle.py:190-207 | a second sweep at the same time changes and publishes nothing |
| Lifecycle.LivenessIsRecency | chimera/core/lifecycle.py:204-215 | a sweep fails a live module if and only if it was silent for the threshold's worth of intervals, and leaves it healthy if and only if for less than one fewer |
| Liveness.LastSeenIsLastBeat | chimera/core/lifecycle.py:145-188 | over runs, a module is tracked if and only if it was tracked or registered by name, and its last-seen time is that of its last heartbeat since, none if there was none |
| Liveness.SweepsByLastBeat | chimera/core/lifecycle.py:190-215 | over runs, a sweep fails a live module if and only if its last heartbeat is the threshold's worth of intervals ago, leaves it healthy if and only if less than one fewer, and leaves alone one that never beat or is not live |
| Liveness.SilenceIsFound | chimera/core/lifecycle.py:186-207 | a registered, healthy module that beat once and fell silent is failed by the next sweep after the threshold |
| Liveness.NamesAreInBirthOrder | chimera/core/lifecycle.py:145-153 | the records are kept, and so swept, in the order in which the modules became known |
| Liveness.CountIsRestarts | chimera/core/lifecycle.py:225-243 | over runs, the restart count is the number of restarts ever recorded |
| Registry.ModuleRegistry.Register | chimera/core/registry.py:76-115 | drives the lifecycle, then stores the entry and announces it; nothing after a refusal |
| Registry.ModuleRegistry.Deregister | chimera/core/registry.py:117-134 | walks a live module to STOPPED and removes the entry; absent is no error |
| Registry.ModuleRegistry.MarkLost | chimera/core/registry.py:136-143 | fails a registered live module, and does nothing else |
| Registry.RegisterIs | chimera/core/registry.py:76-115 | registration succeeds if and only if the name is new and not empty, or the module is starting or up; it leaves the state of a module that is up and makes any other registered; otherwise nothing at all has changed |
| Registry.DeregisterIs | chimera/core/registry.py:117-134 | the entry goes, a module that was up or stopping is stopped, any other keeps its state; absent changes nothing |
| Registry.MarkLostIs | chimera/core/registry.py:136-143 | a registered module that was up fails with one event, and nothing else changes |
| Supervisor.ProcessSupervisor.HandleFailure | chimera/core/supervisor.py:158-182 | asks the lifecycle to restart a failed module and respawns its process if that was granted and is its to do |
| Supervisor.FailureIs | chimera/core/supervisor.py:158-182 | a failed module is restarted if and only if its budget has room, external modules included, and is otherwise given up |
| Supervisor.OthersAreLeftAlone | chimera/core/supervisor.py:158-182 | a module that is not the supervisor's, or has not failed, is left alone |
| LifecycleRuns.RunsArePaths | chimera/core/lifecycle.py:56-75 | in every run, what was published for a module is one gap-free path along allowed edges from UNREGISTERED to its state |
| LifecycleRuns.TerminalStatesAbsorb | chimera/core/lifecycle.py:51-55 | a stopped or permanently failed module stays so and publishes nothing more, whatever is asked |
| LifecycleRuns.RegisteredAreTracked | chimera/core/registry.py:117-143 | every registered module is tracked, so deregister and mark_lost never raise |
| RestartBudget.PruningLosesNothing | chimera/core/lifecycle.py:233-241 | the last hour of the pruned list is the last hour of all restarts there ever were |
| RestartBudget.BudgetIsHistory | chimera/core/lifecycle.py:235-240 | the budget has room if and only if fewer than the cap of all restarts fall into the last hour |
| RestartBudget.RollingHourCap | chimera/core/lifecycle.py:225-243 | no half-open hour of any run with a nondecreasing clock holds more recorded restarts of a module than the cap |
| RestartClock.RunIsBooked | chimera/core/lifecycle.py:225-243 | in any run, on any clock, a module's pruned list and its recorded restarts are functions of the times of its attempts alone |
| RestartClock.ClockBreaksCap | chimera/core/lifecycle.py:225-243 | on a clock that goes an hour past a reading and comes back near it, a run that restarts only failed modules breaks any cap of two or more |
| RestartClock.CapIffClock | chimera/core/lifecycle.py:225-243 | every run on a sequence of clock readings keeps the cap if and only if it is at most one or the clock has no such return |
| Waves.Sorted | chimera/core/supervisor.py:73-73 | the names of a set, each once, in lexicographic order |
| Waves.BeforeIff | chimera/core/supervisor.py:73-73 | the order of names: a proper prefix first, else by the first character that differs |
| Waves.LastCounts | chimera/core/supervisor.py:63-63 | of several specs with one name the last counts |
| Waves.ChainDescends | chimera/core/supervisor.py:71-78 | along any dependency chain the levels go down by at least one a link |
| Waves.StuckHasCycle | chimera/core/supervisor.py:74-75 | if modules remain and none is ready, there is a dependency cycle |
| Waves.RemainingAreEndless | chimera/core/supervisor.py:74-75 | the modules that the cycle error names are exactly those whose dependency chains never end |
| Waves.DepthIsUnique | chimera/core/supervisor.py:60-79 | a module has one depth, so it can be in one wave only |
| Waves.LayeringIsUnique | chimera/core/supervisor.py:60-79 | there is only one such list of waves, so the result is determined to the last place |
| Waves.TopologicalWaves | chimera/core/supervisor.py:60-79 | waves are returned if and only if every dependency is known and there is no cycle; they hold every module, wave k in order of name those whose longest dependency chain has k links; a cycle error names, in order, exactly the modules that no wave can hold |
| Broker.PlainPattern | chimera/core/broker.py:22-40 | a pattern without a star matches itself only |
| Broker.PrefixPattern | chimera/core/broker.py:34-36 | `prefix.*` matches exactly the topics below the prefix |
| Broker.SuffixPattern | chimera/core/broker.py:37-39 | `*.suffix` matches exactly the topics that end in the suffix after a dot |
| Broker.MatchesIff | chimera/core/broker.py:22-40 | a pattern matches by the bare star, by equality, by prefix or by suffix, and in no other way |
| Broker.DeliverIs | chimera/core/broker.py:114-181 | an open subscription with a matching pattern gets the event at the end of its queue, at the bound for the oldest one, counted and noticed; any other stays as it is |
| Broker.GetIs | chimera/core/broker.py:75-112 | what a get returns and takes: nothing when closed, the notice, the oldest event, or empty |
| Broker.Subscription.GetNowait | chimera/core/broker.py:75-81 | closed, then the overflow notice, then the oldest queued event |
| Broker.Subscription.ConsumeOverflow | chimera/core/broker.py:106-112 | the notice is handed out once and the count starts over |
| Broker.Subscription.TryEnqueue | chimera/core/broker.py:114-128 | appends, dropping the oldest and counting it when the buffer is full |
| Broker.EventBroker.Publish | chimera/core/broker.py:174-181 | every matching open subscription gets the event once, in whatever order, and no other changes |
| Broker.RunsConserve | chimera/core/broker.py:75-140 | over every interleaving the queue is the contiguous suffix of what was enqueued, deliveries keep the order without duplicates, and enqueued is delivered plus dropped plus queued; the notice is pending if and only if drops were not yet noticed |
| Broker.NoticeReportsOneDrop | chimera/core/broker.py:130-140 | a notice always reports one drop, and understates the loss if and only if an event was dropped while it was pending and it has not been handed out since |
| Broker.BurstUnderstates | chimera/core/broker.py:114-140 | after a burst of events that nobody reads, the notice reports one drop and as many were dropped as the burst outgrew the buffer by |
| Router.CallRouter.AttachModuleWriter | chimera/core/server.py:408-414 | a new connection replaces the old one after failing its calls |
| Router.CallRouter.DetachModuleWriter | chimera/core/server.py:416-424 | the connection goes, and exactly the module's open calls fail as offline |
| Router.CallRouter.ResolvePending | chimera/core/server.py:426-433 | a reply resolves the pending call with its id if that is still open |
| Router.CallRouter.IssueToModule | chimera/core/server.py:435-458 | the three refusals in order, else a new internal id and a pending call of the owner |
| Router.RunsCorrelate | chimera/core/server.py:408-485 | over every interleaving: ids are fresh, each future is resolved exactly by its recorded cause, a reply with its own id or its owner's detachment; every unresolved call's owner is attached; every answer goes to its own caller with what resolved the call, once |
| Router.RunsContinue | chimera/core/server.py:408-485 | nothing is undone: ids keep their caller, futures their cause, answers stay |
| Router.LateRepliesAreIgnored | chimera/core/server.py:426-433 | a reply to a call that is resolved, ended or unknown changes nothing |
| Router.OwnerIs | chimera/core/server.py:446-446 | the module of a method is what stands before its first dot |
| Router.AttachIs | chimera/core/server.py:408-414 | the connection is replaced, and the old one's open calls fail as offline |
| Router.DetachIs | chimera/core/server.py:416-424 | the connection is gone, each of its open calls has the -31000 reply, and every other call and connection is as before |
| Router.IssueIs | chimera/core/server.py:435-458 | the three refusals in order with their codes, else the next id and an open call |
| Router.DetachAnswers | chimera/core/server.py:416-485 | over runs, every caller of an open call to a module that detaches is answered with -31000 |
| Router.DetachRefuses | chimera/core/server.py:416-451 | over runs, a call to a detached module is refused with -31000 |
| Router.GivenUpIs | chimera/core/server.py:460-472 | a call that times out or cannot be written is answered so and forgotten |
| Router.AnyoneResolves | chimera/core/server.py:899-902 | the caller of an open call gets the first reply to its id, whichever connection sent it |
| Router.OwnersResolveIffNoForeignReply | chimera/core/server.py:426-433 | every call that a reply resolved was resolved by its owner if and only if no other connection's reply came in while it was open |
| Base64Url.ValueOfSymbol | chimera/modules/chaff/src/crypto.c:51-68 | the symbol table and its inverse agree on all 64 values, and the padding is none of them |
| Base64Url.StaleBitsDoNotMatter | chimera/modules/chaff/src/crypto.c:70-97 | what the accumulator yields depends on its last two values only, although it wraps at 32 bits |
| Base64Url.EncodedLength | chimera/modules/chaff/src/crypto.c:26-49 | four symbols for every three bytes begun |
| Base64Url.Encode | chimera/modules/chaff/src/crypto.c:26-49 | the encoding and a terminator fill the allocated buffer exactly, no write outside it |
| Base64Url.Decode | chimera/modules/chaff/src/crypto.c:70-97 | the decoded bytes, or failure, with every write inside the allocated buffer |
| Base64Url.RoundTrip | chimera/modules/chaff/src/crypto.c:26-97 | decoding the encoding of any byte sequence returns it |
| Base64Url.FieldsAreBits | chimera/modules/chaff/src/crypto.c:33-44 | the four values of a group are its bits, six at a time, high ones first |
| Base64Url.QuadIs | chimera/modules/chaff/src/crypto.c:33-47 | a group's text is the symbols of those values, padded where there are no bytes |
| Base64Canonical.ReencodesIffCanonical | chimera/modules/chaff/src/crypto.c:70-97 | an accepted text is its bytes' encoding if and only if it is padded to whole groups and no further, has no lone last symbol, and its unused bits are zero |
| LineReader.Reader.Fill | chimera/modules/chaff/src/ipc.c:75-85 | a read is appended; it fails on a full buffer, end of file or error |
| LineReader.Reader.TakeLine | chimera/modules/chaff/src/ipc.c:87-100 | the first complete line leaves the buffer and is copied as far as the output goes; without one nothing changes |
| LineReader.Reader.Drain | chimera/modules/chaff/src/daemon.c:166-180 | the inner loop takes every complete line, none of them cut |
| LineReader.Reader.Serve | chimera/modules/chaff/src/daemon.c:161-185 | however the stream is cut into reads, the lines handed out and the remainder are the stream's own; it stops early only at the end or on 16384 bytes without a newline |
| LineReader.SplitsAppend | chimera/modules/chaff/src/ipc.c:75-100 | a stream that arrives in two parts has the lines of the first, then those its remainder completes |
| LineReader.SplitIsUnique | chimera/modules/chaff/src/ipc.c:75-100 | a stream splits into lines and a remainder in one way only |

## Left out

- Sockets, asyncio scheduling, subprocesses, the keychain, disk images and file input and output: foreign calls, here the parameters of a step.
- JSON and its libraries: commands start from decoded requests; the printed sizes of the registry and the indexes are abstract functions.
- The cryptographic primitives: abstract functions, with the law that opening undoes sealing.
- Memory exhaustion, overflow of C integers outside the base64url accumulator, and rounding of floating-point numbers.
- VaultParser.ParseText: does not model the text of error messages, because only success or failure reaches a caller.
- VaultRuntime.Runtime.Create: does not model a write that stops half-way and leaves a damaged file; a save happens or it does not.
- VaultRuntime.Runtime.Delete: does not model a disk image that refuses to detach; the source ignores that result.
- VaultSealing.NothingIsOrphaned: asks that the vault's own index is read back whole when add_file or policy.update names the vault, because otherwise it is false of the code (`VaultSealing.AddKeepsIffFits`, `VaultSealing.UpdateRefusesIffFits`), and for random ids and nonces that are fresh, which is the random generator's part.
- VaultWitnesses.FullIndexLosesFiles: assumes of the JSON printer that an index's file is at least as long as the ciphertexts in it; VaultWitnesses.MountLost that an index of one small entry fits its buffer.
- VaultLongPolicies.LongPolicyIsCut: asks that e as it is printed here, one space after each token, fits the buffer, because a longer text is cut inside e.
- The relock time written in a policy as an input to the scheduler: the runtime uses 900 seconds for every vault.
- TetherMonitor.Monitor.Tick: works on integers and reals, without the overflow of the C++ counters.
- Lifecycle.LifecycleManager.SweepOnce: asks for a heartbeat interval other than zero, because the source divides by it.
- RestartBudget.RollingHourCap: counts recorded restarts, because the source records one before it tries the transition; a supervisor's own restarts are never refused (`Supervisor.FailureIs`).
- The backoff delay between restarts, the periodic loops around sweep and tick, and the launch and shutdown choreography: short, without state of their own.
- Broker.Subscription.GetNowait: stands for the awaiting variant too, except for the race between a wake-up and a close.
- Router.CallRouter.IssueToModule: leaves out the gate and the override phrase in front of it and the cancellation of a caller, because they never touch the pending calls of others.
- CHAFF, ECHO, MIRROR, PURGE, PULSE and ORACLE beyond the two codecs, the command lines and the plug-ins: correct in small steps.
