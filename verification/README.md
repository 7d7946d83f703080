# Verified models of the hard cores of skynet

A Dafny project that models the parts of skynet whose correctness is not obvious from reading one function,
and proves what they are for. `dafny verify dfyconfig.toml` checks everything.

- **LPeg** (`Lpeg*.dfy`). Trees have a recursive reference semantics (`LpegTree`). The static analyses are
  sound (`LpegAnalysis`) and on large classes of patterns exact (`LpegExact`), matching terminates for every
  grammar that is not left recursive, which is what the check of grammars is for (`LpegVerify`), the shortcuts
  of the pattern constructors keep the meaning (`LpegShortcuts`), and generated code, with head-fail tests,
  first and follow sets, dominating tests, reused choices, tail calls and the peephole pass, does on the
  machine of `LpegVm` exactly what the tree means (`LpegCorrect`, `LpegJumps`, `LpegTailCalls`,
  `LpegPeephole`, `LpegProgram`). `LpegCompile` is the compiler as it is written, appending to and patching an
  instruction buffer; `LpegMatch` is the interpreter's loop. `LpegMatch.MatchPattern` goes from end to end.
- **Scheduler** (`Mq.dfy`, `Scheduler*.dfy`). The ring queues and the global linked list are classes; the
  dispatch and lifetime code is a state machine over any number of threads, in which a step is one spinlock
  region or one atomic operation. `SchedulerHistory` says what becomes of a service and of a message over
  whole runs.
- **Timer** (`Timer*.dfy`). The wheel is a class over its arrays of lists; it refines a plain list of timeouts
  on an unbounded clock, of which the 32-bit clock is the remainder, and which counts the updates.
- **Socket** (`Socket*.dfy`). One connected TCP socket as a state machine: any number of senders, the pipe,
  the socket thread, two priorities, short writes, write events, errors and all kinds of closing. `SocketSlot`
  is the socket thread's code in place; each call does some steps of the machine.
- **Smaller cores**: the reader/writer spin lock (`RwLock`), the handle table (`Handle*`), the frame
  reassembler (`Netpack*`), DES, down to the bits that FIPS 46-3 names, with its key schedule and its paddings
  (`Des*`; ISO/IEC 7816-4, and section 6.3 of RFC 5652) and the modular arithmetic of the key exchange
  (`ModArith`), the block-list serializer (`Seri*`) and the two-pass hash of shared data (`Sharedata*`).

Where the source changes state in place the model is a class or a method with a loop, proved against a
function; the properties are lemmas about that function or about every run of a state machine.

## What turned out not to hold

In each case the code is kept as it is, the exact condition is proved, and an input or a run that fails is given.

- `verifyrule` promises (skynet/3rd/lpeg/lptree.c:993-996) to return whether the pattern is nullable, with
  `nb` as an accumulator, but its TGrammar case (line 1041) drops `nb`. For every sub-grammar G that is not
  nullable, the left-recursive rule `A <- G* A` is therefore accepted, and matching it need not terminate
  (`LosesNb`, `HiddenAccepted`, `HiddenDiverges`, `HiddenExample`). Rejections are always right, and without
  sub-grammars the check is exact (`RejectedIsLeftRecursive`, `ExactWithoutSubGrammars`). The source does not get
  as far as matching: for the body of A, `codeseq1` asks for the first set of the call of A, and `getfirst`
  follows it through the nullable repetition to the same call without end (skynet/3rd/lpeg/lpcode.c:318-330,
  899-903). The compiler theorems are about grammars that the check accepts with `nb` kept.
- `powmodp(P, 1)` is P, not zero, because only arguments greater than P are reduced (`PowmodpExact`). Public
  keys are never zero modulo P, so the key exchange is not concerned (`PublicNotZero`, `SameSecret`).
- `skynet_context_new` writes `ctx->init` and logs (skynet/skynet-src/skynet_server.c:163-170) after it has
  released the context. When the handle is retired in between, the context has been deleted
  (`LauncherUsesDeleted`); it is alive exactly under the condition of `AliveExactly`.
- `force_close` frees the write lists before it takes `dw_lock`. In between, a direct write can follow a
  package of which only a part was sent (`ContiguousExactly`, `TornRun`); the order of packages is not
  concerned (`InOrder`).
- A socket that is marked as closing need not be closed when nothing more can be sent. A close that overtakes a
  send finds nothing to send but what `sending` counts; the send is dropped when it comes, and no write event
  follows that would close the socket (`CloseForgets`). `ClosedExactly` says for every run when such a socket can
  still be closed. What a graceful close delivers is stated exactly in `GracefulClose` and `AllDelivered`.
- A round of the search for a free handle that passes HANDLE_MASK skips handle zero and with it slot zero, so
  the table doubles when that is the only free slot (`ZeroTried`, `DoublesExactly`, `SparseTable`).
- Integer keys of shared data are cast to 32 bits after they have been counted, and keys that are tables are
  taken for the empty string. Keys that become the same hide each other, and slots may stay empty
  (`FindsExactly`, `FilledExactly`, `OrderIsTable`, with the tables of `MergedKeys`, `MergedTable` and
  `MovedKey`).

## Model

| member | source | states |
|---|---|---|
| LpegTree.MoreFuel | skynet/3rd/lpeg/lpvm.c:160-305 | the reference semantics is well defined: an answer does not depend on the fuel |
| LpegAnalysis.NullableSound | skynet/3rd/lpeg/lpcode.c:196-230 | a pattern that matches without consuming is `nullable`, in every sound grammar |
| LpegAnalysis.NoFailSound | skynet/3rd/lpeg/lpcode.c:196-230 | a `nofail` pattern never fails, on any subject and at any position |
| LpegAnalysis.NoFailNullable | skynet/3rd/lpeg/lpcode.c:196-230 | `nofail` implies `nullable` |
| LpegAnalysis.CheckAuxMono | skynet/3rd/lpeg/lpcode.c:196-230 | following more calls never takes back a positive verdict of `checkaux` |
| LpegAnalysis.BudgetSuffices | skynet/3rd/lpeg/lpcode.c:133-146 | in a sound grammar the depth to which the analyses follow calls is enough for every pattern |
| LpegAnalysis.CheckAuxExact | skynet/3rd/lpeg/lpcode.c:196-230 | when left calls nest at most d deep, following more than d calls changes no verdict of `nullable` and `nofail` |
| LpegAnalysis.FirstExact | skynet/3rd/lpeg/lpcode.c:294-370 | nor the result of `getfirst` |
| LpegAnalysis.HeadFailExact | skynet/3rd/lpeg/lpcode.c:377-399 | nor the verdict of `headfail` |
| LpegAnalysis.BudgetIsEnough | skynet/3rd/lpeg/lpcode.c:133-146 | so in a sound grammar the analyses say what they would if they followed calls without a limit |
| LpegAnalysis.FixedLenSound | skynet/3rd/lpeg/lpcode.c:236-273 | if `fixedlen` is n >= 0, every match consumes exactly n characters |
| LpegAnalysis.FirstSound | skynet/3rd/lpeg/lpcode.c:294-370 | `getfirst` over-approximates: a match that the follow set accepts starts with a character of the first set, or the pattern is reported as possibly empty |
| LpegAnalysis.HeadFailSound | skynet/3rd/lpeg/lpcode.c:377-399 | `headfail`: the pattern matches if and only if the next character is in its first set |
| LpegAnalysis.HeadFailNotEmpty | skynet/3rd/lpeg/lpcode.c:377-399 | a `headfail` pattern is never reported as possibly empty by `getfirst` |
| LpegAnalysis.CharsetMeaning | skynet/3rd/lpeg/lpcode.c:107-125 | a tree that `tocharset` turns into a set matches exactly one character of that set |
| LpegExact.NullableExactly | skynet/3rd/lpeg/lpcode.c:196-230 | without predicates, look-behinds and sub-grammars `nullable` says exactly whether the pattern matches at the end of a subject |
| LpegExact.NoFailExactly | skynet/3rd/lpeg/lpcode.c:196-230 | without negative predicates, look-behinds and sub-grammars `nofail` says exactly whether the pattern never fails; one that may fail does so at the end of every subject |
| LpegExact.FixedLenExactly | skynet/3rd/lpeg/lpcode.c:236-273 | without calls `fixedlen` is the one length that all ways through the pattern have, or -1 exactly if two of them differ |
| LpegExact.LoopsExactly | skynet/3rd/lpeg/lptree.c:954-971 | `checkloops` rejects a pattern if and only if some repetition in it, outside of sub-grammars, has a nullable body |
| LpegExact.RejectedIsEndless | skynet/3rd/lpeg/lptree.c:954-971 | without predicates, look-behinds and sub-grammars a rejected pattern has a repetition that does not end at the end of any subject |
| LpegExact.RejectsEndless | skynet/3rd/lpeg/lptree.c:954-971 | and in a sound grammar it is rejected if and only if it has such a repetition |
| LpegVerify.VerifyError | skynet/3rd/lpeg/lptree.c:979-990 | names a rule that was passed twice if there is one, and reports too many left calls only if there is none |
| LpegVerify.RepairedExact | skynet/3rd/lpeg/lptree.c:1004-1044 | with `nb` kept in the TGrammar case, `verifyrule` accepts exactly the patterns whose chains of left calls are bounded by MAXRULES, and returns exactly `nb || nullable` |
| LpegVerify.SourceRejectsLess | skynet/3rd/lpeg/lptree.c:1004-1044 | the check as written accepts whatever the repaired one accepts, so what it rejects is rejected rightly |
| LpegVerify.EachRuleOnce | skynet/3rd/lpeg/lptree.c:1032-1038 | if chains of left calls are bounded at all, they are no longer than the number of rules |
| LpegVerify.RepairedRejectsLeftRecursion | skynet/3rd/lpeg/lptree.c:1047-1065 | for grammars of at most MAXRULES rules the repaired check accepts a rule if and only if it is not left recursive |
| LpegVerify.RejectedIsLeftRecursive | skynet/3rd/lpeg/lptree.c:1047-1065 | every rule that `verifygrammar` rejects for left calls is left recursive |
| LpegVerify.AcceptedNotLeftRecursive | skynet/3rd/lpeg/lptree.c:1047-1065 | a grammar that `verifygrammar` accepts is free of left recursion if and only if the repaired check accepts it too |
| LpegVerify.LosesNb | skynet/3rd/lpeg/lptree.c:1040-1041 | the TGrammar case returns the promised value if and only if `nb` is false or the sub-grammar is nullable |
| LpegVerify.ExactWithoutSubGrammars | skynet/3rd/lpeg/lptree.c:1004-1044 | without sub-grammars the check as written and the repaired check give the same verdict |
| LpegVerify.HiddenAccepted | skynet/3rd/lpeg/lptree.c:1040-1065 | every non-nullable sub-grammar hides a left recursion from the check: a family of left-recursive grammars that is accepted |
| LpegVerify.HiddenDiverges | skynet/3rd/lpeg/lptree.c:1040-1065 | matching such an accepted grammar does not terminate at the end of any subject |
| LpegVerify.HiddenExample | skynet/3rd/lpeg/lptree.c:1040-1065 | a concrete accepted grammar on which matching does not terminate |
| LpegVerify.VerifiedIsSound | skynet/3rd/lpeg/lptree.c:1004-1065 | a closed grammar that passes the repaired check satisfies everything the analyses and the compiler rely on |
| LpegVerify.AcceptedIsSound | skynet/3rd/lpeg/lptree.c:1047-1065 | a closed grammar that `verifygrammar` accepts as it is written is sound if and only if it is not left recursive |
| LpegVerify.AcceptedWithoutSubGrammars | skynet/3rd/lpeg/lptree.c:1047-1065 | it is, when no rule contains a sub-grammar |
| LpegVerify.Terminates | skynet/3rd/lpeg/lptree.c:954-971 | PEG evaluation terminates for every sound pattern, subject and position |
| LpegVerify.TerminatesRep | skynet/3rd/lpeg/lptree.c:954-971 | a repetition whose body `checkloops` accepts terminates |
| LpegVerify.Total | skynet/3rd/lpeg/lptree.c:954-1065 | every sound pattern has exactly one result on every subject, from every position |
| LpegShortcuts.SeqAlike | skynet/3rd/lpeg/lptree.c:532-542 | the shortcuts of the sequence operator do not change what the pattern means |
| LpegShortcuts.ChoiceAlike | skynet/3rd/lpeg/lptree.c:551-566 | nor do those of the choice operator: the union of two sets, a first alternative that cannot fail, and false on either side |
| LpegShortcuts.CorrectSeq | skynet/3rd/lpeg/lptree.c:78-90 | the loop that moves nested sequences to the right ends, and keeps the meaning |
| LpegShortcuts.CorrectChoice | skynet/3rd/lpeg/lptree.c:78-90 | the same for choices |
| LpegShortcuts.AtLeastMeans | skynet/3rd/lpeg/lptree.c:572-584 | p^n matches as often as p can, if that is at least n times, and fails if and only if it is less |
| LpegShortcuts.AtMostMeans | skynet/3rd/lpeg/lptree.c:585-599 | p^-n matches as often as p can, but at most n times, and never fails |
| LpegShortcuts.NotYields | skynet/3rd/lpeg/lptree.c:617-620 | -p matches the empty string exactly where p fails, and fails exactly where p matches |
| LpegShortcuts.AndIsDoubleNot | skynet/3rd/lpeg/lptree.c:608-611 | #p is --p |
| LpegShortcuts.BehindMeans | skynet/3rd/lpeg/lptree.c:680-690 | B(p) matches the empty string exactly where p matches some text that ends there |
| LpegShortcuts.DifferenceMeans | skynet/3rd/lpeg/lptree.c:627-646 | p - q matches what p matches, where q fails, and fails elsewhere, also when both are sets and the difference is a set |
| LpegVm.HaltsUnique | skynet/3rd/lpeg/lpvm.c:160-305 | the machine has at most one final state |
| LpegVm.JoinTrans | skynet/3rd/lpeg/lpvm.c:160-305 | having a common successor is transitive, so it is an equivalence of machine states |
| LpegVm.JoinHalts | skynet/3rd/lpeg/lpvm.c:160-305 | states with a common successor halt in the same final state |
| LpegLayout.GenFine | skynet/3rd/lpeg/lpcode.c:919-944 | generated code is laid out in whole instructions and its open calls go to used rules |
| LpegLayout.CorrectCallsSlots | skynet/3rd/lpeg/lpcode.c:844-861 | `correctcalls` closes every open call, changes nothing else, and makes a tail call only where control would reach a return |
| LpegLayout.RuleSlice | skynet/3rd/lpeg/lpcode.c:868-884 | the recorded position of a rule is where its code stands, followed by a return |
| LpegLayout.GrammarFine | skynet/3rd/lpeg/lpcode.c:844-884 | the code of a grammar has no open calls left |
| LpegCorrect.GenCorrect | skynet/3rd/lpeg/lpcode.c:919-944 | code generated with any `opt`, `tt` and `fl` does what the pattern means wherever it stands, under the stated contract of these three parameters |
| LpegCorrect.SeqCorrect | skynet/3rd/lpeg/lpcode.c:899-911 | a sequence may hand its guard to its second pattern when the first consumes nothing, and its follow set to the first |
| LpegCorrect.TestedChoiceCorrect | skynet/3rd/lpeg/lpcode.c:682-693 | a choice without a choice instruction, guarded by a test alone |
| LpegCorrect.OptionCorrect | skynet/3rd/lpeg/lpcode.c:694-698 | an option that reuses the choice of the option around it |
| LpegCorrect.PlainChoiceCorrect | skynet/3rd/lpeg/lpcode.c:699-711 | a choice whose test dominates the first alternative |
| LpegCorrect.RepCorrect | skynet/3rd/lpeg/lpcode.c:777-813 | a repetition, in all of its three forms |
| LpegCorrect.NotCorrect | skynet/3rd/lpeg/lpcode.c:823-837 | a negative predicate, with and without a head-fail body |
| LpegCorrect.AndCorrect | skynet/3rd/lpeg/lpcode.c:720-736 | a positive predicate, by going back a fixed length or by a back commit |
| LpegCorrect.BehindCorrect | skynet/3rd/lpeg/lpcode.c:659-663 | a look-behind |
| LpegCorrect.CallRuns | skynet/3rd/lpeg/lpcode.c:844-891 | a call of a rule runs the code of the rule and comes back behind the call |
| LpegCorrect.TailCallRuns | skynet/3rd/lpeg/lpcode.c:844-861 | a tail call that became a jump delivers what the call delivered |
| LpegCorrect.GrammarCorrect | skynet/3rd/lpeg/lpcode.c:868-884 | the code of a grammar means its first rule |
| LpegJumps.GenAcyclic | skynet/3rd/lpeg/lpcode.c:919-944 | no chain of jumps in generated code is a cycle, and every label stays inside |
| LpegJumps.GrammarAcyclic | skynet/3rd/lpeg/lpcode.c:844-884 | nor after calls of a sound grammar became jumps: a cycle of tail calls would be a left recursion |
| LpegTailCalls.CallFollowed | skynet/3rd/lpeg/lpcode.c:844-861 | `finaltarget` terminates wherever `correctcalls` asks it, also while only a part of the calls has been corrected |
| LpegTailCalls.CorrectingStep | skynet/3rd/lpeg/lpcode.c:844-861 | one iteration of `correctcalls` keeps this |
| LpegTailCalls.NoTailCallMissed | skynet/3rd/lpeg/lpcode.c:844-861 | every call behind which the generated code only jumps to a return becomes a jump |
| LpegPeephole.HopsBounded | skynet/3rd/lpeg/lpcode.c:641-645 | a chain of jumps that ends does so after at most as many hops as there are instructions |
| LpegPeephole.PeepEnds | skynet/3rd/lpeg/lpcode.c:641-653 | in half-optimized code chains of jumps still end, where they ended before |
| LpegPeephole.Relabel | skynet/3rd/lpeg/lpcode.c:962-967 | shortening a label keeps the correspondence with the original code |
| LpegPeephole.TakeOver | skynet/3rd/lpeg/lpcode.c:970-982 | a jump may be replaced by the return, end, fail or commit that it finally leads to |
| LpegPeephole.Shorten | skynet/3rd/lpeg/lpcode.c:984-987 | a jump may go straight to its final target |
| LpegPeephole.ExecRel | skynet/3rd/lpeg/lpcode.c:956-995 | corresponding instructions lead to corresponding states |
| LpegPeephole.PeepRuns | skynet/3rd/lpeg/lpcode.c:956-995 | code that corresponds to the original halts with the result of the original, on every subject |
| LpegProgram.RawTidy | skynet/3rd/lpeg/lpcode.c:1001-1010 | every chain of jumps in a compiled program ends, inside the program |
| LpegProgram.RawRuns | skynet/3rd/lpeg/lpcode.c:1001-1010 | before the peephole pass the program halts with what the pattern means |
| LpegProgram.CompilerCorrect | skynet/3rd/lpeg/lpcode.c:1001-1010 | for every sound pattern the optimized program ends at j if and only if the pattern matches up to j, and gives up if and only if the pattern fails |
| LpegCompile.CompileState.CodeTestSet | skynet/3rd/lpeg/lpcode.c:614-635 | appends the cheapest test of the first set, or none if the pattern may match the empty string |
| LpegCompile.CompileState.CodeSeq1 | skynet/3rd/lpeg/lpcode.c:899-911 | appends the first pattern and passes on the guard if the pattern consumes nothing |
| LpegCompile.CompileState.CodeChoice | skynet/3rd/lpeg/lpcode.c:677-712 | appends the code of a choice and patches its labels in place |
| LpegCompile.CompileState.CodeRep | skynet/3rd/lpeg/lpcode.c:777-813 | appends the code of a repetition and patches its labels in place |
| LpegCompile.CompileState.CodeNot | skynet/3rd/lpeg/lpcode.c:823-837 | appends the code of a negative predicate |
| LpegCompile.CompileState.CodeAnd | skynet/3rd/lpeg/lpcode.c:720-736 | appends the code of a positive predicate |
| LpegCompile.CompileState.CodeBehind | skynet/3rd/lpeg/lpcode.c:659-663 | appends the code of a look-behind |
| LpegCompile.CompileState.CodeRules | skynet/3rd/lpeg/lpcode.c:868-884 | appends the rules and records where each starts |
| LpegCompile.CompileState.CodeGrammar | skynet/3rd/lpeg/lpcode.c:868-884 | appends a grammar and corrects its calls in place |
| LpegCompile.CompileState.CorrectCalls | skynet/3rd/lpeg/lpcode.c:844-861 | the loop over the instructions of a grammar |
| LpegCompile.CompileState.CodeGen | skynet/3rd/lpeg/lpcode.c:919-944 | appends exactly the code of the tree |
| LpegCompile.CompileState.FinalTarget | skynet/3rd/lpeg/lpcode.c:641-645 | follows jumps to the first instruction that is none |
| LpegCompile.CompileState.FinalLabel | skynet/3rd/lpeg/lpcode.c:651-653 | where the label of an instruction finally leads |
| LpegCompile.CompileState.PeepJump | skynet/3rd/lpeg/lpcode.c:968-990 | optimizes one jump; touches its own two slots only |
| LpegCompile.CompileState.Peephole | skynet/3rd/lpeg/lpcode.c:956-995 | the pass over the program keeps the correspondence with the program before it |
| LpegCompile.Compile | skynet/3rd/lpeg/lpcode.c:1001-1010 | what is compiled implements the pattern |
| LpegMatch.PopFailed | skynet/3rd/lpeg/lpvm.c:291-305 | pops pending calls and resumes at the saved state |
| LpegMatch.Execute | skynet/3rd/lpeg/lpvm.c:174-305 | one turn of the loop does one step of the machine on the explicit stack array |
| LpegMatch.Match | skynet/3rd/lpeg/lpvm.c:160-305 | the loop ends and returns the result of the machine |
| LpegMatch.MatchPattern | skynet/3rd/lpeg/lpvm.c:160-305 | compiling a sound pattern and matching it gives what the pattern means, from end to end |
| Mq.GlobalQueue.Push | skynet/skynet-src/skynet_mq.c:44-56 | appends a queue to the linked list |
| Mq.GlobalQueue.Pop | skynet/skynet-src/skynet_mq.c:59-75 | takes the first queue off the linked list, if there is one |
| Mq.MessageQueue.Length | skynet/skynet-src/skynet_mq.c:112-125 | the number of queued messages, from the ring indices |
| Mq.MessageQueue.Overload | skynet/skynet-src/skynet_mq.c:128-135 | reports an overload once |
| Mq.MessageQueue.Pop | skynet/skynet-src/skynet_mq.c:138-172 | takes the oldest message; an empty queue leaves the global list; the overload threshold doubles until it covers the length |
| Mq.MessageQueue.ExpandQueue | skynet/skynet-src/skynet_mq.c:175-187 | the full ring is copied in order into one twice its size |
| Mq.MessageQueue.Push | skynet/skynet-src/skynet_mq.c:190-209 | appends a message and lists the queue if it was not in the global list |
| Mq.MessageQueue.MarkRelease | skynet/skynet-src/skynet_mq.c:220-228 | marks the queue and lists it if it was not in the global list |
| SchedulerProof.PopKeeps | skynet/skynet-src/skynet_server.c:317-320 | taking a message keeps the invariant of the scheduler |
| SchedulerProof.WeighKeeps | skynet/skynet-src/skynet_server.c:321-324 | so does computing the batch |
| SchedulerProof.MqReleaseKeeps | skynet/skynet-src/skynet_mq.c:240-250 | so does releasing a queue, marked or not |
| SchedulerProof.ReleaseKeeps | skynet/skynet-src/skynet_server.c:221-227 | so does giving up a reference |
| SchedulerProof.DeleteKeeps | skynet/skynet-src/skynet_server.c:208-218 | so does deleting a context |
| SchedulerProof.PushKeeps | skynet/skynet-src/skynet_server.c:230-239 | so does pushing to a service from any thread |
| SchedulerProof.CreateKeeps | skynet/skynet-src/skynet_server.c:125-160 | so does creating a service |
| SchedulerTheorems.Advances | skynet/skynet-src/skynet_mq.c:59-75 | every take moves a listed queue one place forward or hands it to the thread that takes, and nothing else moves it |
| SchedulerTheorems.TurnComes | skynet/skynet-src/skynet_mq.c:44-75 | a queue behind i others gets its turn at the (i + 1)st take, in every run |
| SchedulerProof.RunKeeps | skynet/skynet-src/skynet_server.c:298-352 | the invariant holds in every interleaving of any number of threads |
| SchedulerTheorems.OneHolder | skynet/skynet-src/skynet_server.c:298-352 | at most one thread holds a queue, and a held queue is not listed |
| SchedulerTheorems.ListedOnce | skynet/skynet-src/skynet_mq.c:44-75 | no queue is in the global list twice |
| SchedulerTheorems.NoLostWakeup | skynet/skynet-src/skynet_mq.c:138-209 | a queue with messages is listed or held by a thread |
| SchedulerTheorems.EachMessageOnce | skynet/skynet-src/skynet_mq.c:138-250 | the pushed messages are, in order, those dispatched, the one in hand, those dropped and those queued; drops begin only after the context was deleted |
| SchedulerTheorems.FreedLast | skynet/skynet-src/skynet_mq.c:231-250 | a queue is freed at most once, after its context was deleted, when it is empty, unlisted, unheld and unreferenced |
| SchedulerTheorems.ReferencesExact | skynet/skynet-src/skynet_server.c:195-227 | the reference count is the number of referring threads plus the registration; a context is deleted once, at zero |
| SchedulerTheorems.AliveWhenReferred | skynet/skynet-src/skynet_server.c:261-352 | a context to which a thread has a reference is not deleted, and a service is called only after its initialization |
| SchedulerTheorems.AliveExactly | skynet/skynet-src/skynet_server.c:160-181 | a context that a thread uses, with a reference or, as the launcher does, without one, is alive if and only if its handle is registered, some thread has a reference, or its deletion is still to come |
| SchedulerHistory.InitDecides | skynet/skynet-src/skynet_server.c:160-181 | init is run at most once for a service; the service is launched if and only if it has succeeded and taken the way of a failed launch if and only if it has failed |
| SchedulerHistory.HandedWhenStarted | skynet/skynet-src/skynet_server.c:160-181 | a message is handed only to a service whose init has succeeded, once |
| SchedulerHistory.RetiredBecause | skynet/skynet-src/skynet_server.c:173-180 | a service that is not registered any more was retired by somebody, or its init has failed |
| SchedulerHistory.FailedIsRetired | skynet/skynet-src/skynet_server.c:173-180 | while a service whose init has failed is still registered, its launcher is on the way to retire it |
| SchedulerHistory.TurnExactly | skynet/skynet-src/skynet_server.c:317-347 | within a turn the messages handed are as many as the loop says, and the queue holds all that the batch still needs |
| SchedulerHistory.TurnEnds | skynet/skynet-src/skynet_server.c:317-347 | a turn that ends with a message in the queue has handed as many as the batch says: the length after the first one shifted right by the weight, but at least one |
| SchedulerHistory.BatchSizeMeans | skynet/skynet-src/skynet_server.c:321-324 | the batch is the length divided by 2^weight, or one message without a weight |
| SchedulerHistory.SendArrives | skynet/skynet-src/skynet_server.c:230-239 | a message to a registered handle is queued last and its queue is listed or held; to another handle nothing happens |
| SchedulerHistory.Reclaimed | skynet/skynet-src/skynet_server.c:208-227 | nothing is leaked: a context without references is deleted or about to be, and the queue of a deleted one is freed, listed, or held by a thread |
| SchedulerTheorems.LauncherUsesDeleted | skynet/skynet-src/skynet_server.c:163-170 | a run in which the launcher is about to write to a context that has been deleted |
| SchedulerTheorems.AssertionsHold | skynet/skynet-src/skynet_mq.c:44-56 | the assertions of the queue code hold: a queue is pushed to the list only when it is not in it |
| TimerPlace.MaskIsQuotient | skynet/skynet-src/skynet_timer.c:68-86 | comparing two clock values with their low k bits set is comparing their quotients by 2^k |
| TimerPlace.Masks | skynet/skynet-src/skynet_timer.c:68-86 | the masks of the near wheel and of the levels are of this kind |
| TimerPlace.DueIsCurrentSlot | skynet/skynet-src/skynet_timer.c:68-86 | a node is in the current near slot if and only if it is due now |
| TimerPlace.StayKeeps | skynet/skynet-src/skynet_timer.c:112-132 | when the clock moves on without a cascade every pending node is in its place already |
| TimerPlace.CascadeExact | skynet/skynet-src/skynet_timer.c:112-132 | a cascade empties exactly the list it should; what it refills was empty; every other node stays, across the 32-bit wrap too |
| TimerWheel.CascadeSelects | skynet/skynet-src/skynet_timer.c:102-132 | after a cascade every list holds what it should, in the order of insertion |
| TimerWheel.SlotIsDue | skynet/skynet-src/skynet_timer.c:153-163 | the current slot holds exactly the due timeouts, in the order of insertion |
| TimerWheel.Timer.AddNode | skynet/skynet-src/skynet_timer.c:68-86 | the node is appended to the one list where it belongs |
| TimerWheel.Timer.TimerAdd | skynet/skynet-src/skynet_timer.c:89-99 | the wheel represents one more pending timeout |
| TimerWheel.Timer.MoveList | skynet/skynet-src/skynet_timer.c:102-109 | the nodes of one list are distributed again, in order |
| TimerWheel.Timer.TimerShift | skynet/skynet-src/skynet_timer.c:112-132 | the wheel represents the same timeouts one tick later |
| TimerWheel.Timer.TakeDue | skynet/skynet-src/skynet_timer.c:153-163 | takes exactly the due timeouts |
| TimerWheel.Timer.UpdateRegion | skynet/skynet-src/skynet_timer.c:166-178 | each locked region of an update does one region of the plain list: it takes what is due, or moves the clock on by one and takes what is due then |
| TimerWheel.Timer.TimerUpdate | skynet/skynet-src/skynet_timer.c:166-178 | a whole update, with what other threads request while the lock is given up: the clock is one further, and exactly the timeouts of the new clock are dispatched |
| TimerWheel.DispatchList | skynet/skynet-src/skynet_timer.c:135-150 | dispatches the events of a list in order |
| TimerRuns.RunKeeps | skynet/skynet-src/skynet_timer.c:89-178 | the plain list never misses a deadline, whatever requests come between two regions |
| TimerRuns.FiresExactly | skynet/skynet-src/skynet_timer.c:89-178 | in every run each timeout with delay 1 to 2^31-1 is dispatched exactly once, when the clock equals its expiry; equal expiries fire in the order of insertion |
| TimerRuns.ClockExact | skynet/skynet-src/skynet_timer.c:166-178 | the clock is the number of completed updates, and one more while an update has shifted but not returned, whatever is requested in between |
| TimerRuns.CallEnds | skynet/skynet-src/skynet_timer.c:166-178 | an update takes at most two regions, and the first one moves the clock on by exactly one |
| TimerRuns.FiresAfter | skynet/skynet-src/skynet_timer.c:89-178 | a timeout of delay d has been dispatched if and only if d updates have shifted since it was requested, so always when d further ones have returned |
| SocketProof.ServerKeepsBytes | skynet/skynet-src/socket_server.c:714-986 | every step of the socket thread keeps `wb_size` equal to the listed unsent bytes |
| SocketProof.WorkerKeepsSending | skynet/skynet-src/socket_server.c:1308-1327 | inc_sending_ref and the pipe keep the count of packages on their way |
| SocketProof.ServerKeepsSending | skynet/skynet-src/socket_server.c:1330-1337 | ctrl_cmd and dec_sending_ref keep it too |
| SocketProof.ServerKeepsKind | skynet/skynet-src/socket_server.c:1129-1155 | every step keeps what has been reported in accord with the type of the socket |
| SocketProof.WorkerKeepsLock | skynet/skynet-src/socket_server.c:1805-1874 | the lock is held exactly by the thread between taking and giving it back |
| SocketProof.ServerKeepsWorkers | skynet/skynet-src/socket_server.c:921-946 | what a direct writer has checked stays true until it writes, although the socket thread goes on |
| SocketWire.WriteKeepsTrail | skynet/skynet-src/socket_server.c:714-743 | a write, complete or short, starts a package behind a whole one or continues the one in progress |
| SocketWire.DirectKeepsWire | skynet/skynet-src/socket_server.c:1817-1857 | a direct write never interleaves with a package in progress |
| SocketWire.HighStepKeepsWire | skynet/skynet-src/socket_server.c:714-743 | sending the high list continues the package in progress, or starts the next |
| SocketWire.LowStepKeepsWire | skynet/skynet-src/socket_server.c:872-892 | sending the low list; a package sent in part is raised and stays the one in progress |
| SocketWire.FreeKeepsWire | skynet/skynet-src/socket_server.c:480-490 | force_close tears at most the one package in progress |
| SocketOrder.DirectKeepsOrder | skynet/skynet-src/socket_server.c:1805-1857 | a direct write overtakes no package of its own sender |
| SocketOrder.SendKeepsOrder | skynet/skynet-src/socket_server.c:1008-1062 | a package from the pipe goes behind all others of its lane |
| SocketOrder.LowSentKeepsLine | skynet/skynet-src/socket_server.c:830-892 | sending and raising a low-priority package does not change the order |
| SocketOrder.TakenKeepsLine | skynet/skynet-src/socket_server.c:921-940 | a package that was written directly in part, or not at all, goes before all others |
| SocketTheorems.RunKeeps | skynet/skynet-src/socket_server.c:1637-1895 | all of this holds in every interleaving of any number of senders with the socket thread |
| SocketTheorems.OneWriter | skynet/skynet-src/socket_server.c:1805-1874 | at most one thread is inside dw_lock |
| SocketTheorems.SizeExact | skynet/skynet-src/socket_server.c:714-986 | `wb_size` is the number of listed unsent bytes until the socket is closed |
| SocketTheorems.AssertionsHold | skynet/skynet-src/socket_server.c:830-918 | the assertions of raise_uncomplete, send_buffer_ and dec_sending_ref hold |
| SocketTheorems.SendingExact | skynet/skynet-src/socket_server.c:1308-1337 | `sending` counts exactly the packages between inc_sending_ref and dec_sending_ref |
| SocketTheorems.PackagesWhole | skynet/skynet-src/socket_server.c:714-1077 | the peer sees packages one after the other, whole, as long as no force_close has freed the lists |
| SocketTheorems.ContiguousExactly | skynet/skynet-src/socket_server.c:480-510 | packages stay whole until, and only until, a direct write starts behind a package that is not whole, which happens only between the freeing of the lists and the lock in force_close |
| SocketTheorems.TornRun | skynet/skynet-src/socket_server.c:480-510 | a run in which that happens |
| SocketTheorems.InOrder | skynet/skynet-src/socket_server.c:1008-1077 | high-priority packages of one sender reach the peer in call order, low-priority ones in the order of the pipe; none twice |
| SocketPriority.OvertakesExactly | skynet/skynet-src/socket_server.c:1008-1062 | a high-priority package overtakes a low-priority one that was taken from the pipe before it if and only if the lists were not empty when that one was taken and none of it has been written yet |
| SocketPriority.LowsInHigh | skynet/skynet-src/socket_server.c:830-1062 | the high list holds at most one low-priority package, at its head or directly behind a package that was written directly |
| SocketDrain.WriteEventDrains | skynet/skynet-src/socket_server.c:860-946 | after a write event the socket thread can go on alone until everything that has left the pipe is with the peer, whole; then no more write events are asked for, or a closing socket is closed |
| SocketReports.EachReportedOnce | skynet/skynet-src/socket_server.c:691-711 | every read that returns data from a socket that may be read is reported once, and so is every failing read, error of the poller and write that fails on a socket neither closing nor half closed |
| SocketClosing.NothingSkipped | skynet/skynet-src/socket_server.c:1008-1077 | until the lists are freed, before a package all earlier packages of its lane have reached the peer, whole, whatever the state of the socket |
| SocketClosing.NoStall | skynet/skynet-src/socket_server.c:989-998 | whenever something is in the lists write events are asked for; for a package that was written directly they are, or will be |
| SocketClosing.GracefulClose | skynet/skynet-src/socket_server.c:1129-1155 | when a closing socket has sent everything, of the packages that had been handed over when it was marked exactly those that were not in the pipe have reached the peer, whole |
| SocketForgotten.CloseForgets | skynet/skynet-src/socket_server.c:1101-1155 | a run in which a close finds nothing to send but what `sending` counts; that is dropped, and the socket is forgotten |
| SocketForgotten.ClosedExactly | skynet/skynet-src/socket_server.c:1101-1155 | a socket that is marked as closing can still be closed, without another reason to close it, if and only if write events are asked for or will be, a direct write may leave something behind, a close command in the pipe or the question being asked will find nothing to send, or the socket thread is sending or closing already |
| SocketForgotten.RememberedEnds | skynet/skynet-src/socket_server.c:860-946 | every such socket is closed by some further steps, whatever has happened so far |
| SocketForgotten.ForgottenForever | skynet/skynet-src/socket_server.c:1101-1155 | otherwise no steps do, but for another close, a hangup or a read event |
| SocketClosing.AllDelivered | skynet/skynet-src/socket_server.c:1101-1104 | when nothing waits to be written, a package that was handed over has reached the peer, whole, if and only if it has left the pipe; if the socket was closed or could not be written any more in between, if and only if it had left it by then |
| SocketTheorems.ClosedOnce | skynet/skynet-src/socket_server.c:1124-1155 | SOCKET_CLOSE is raised at most once in a run, exactly when the socket can no longer be read, and no SOCKET_DATA follows it |
| SocketTheorems.ClosingIsHalfclosed | skynet/skynet-src/socket_server.c:1129-1155 | `closing` implies HALFCLOSE_READ until the slot becomes invalid |
| SocketTheorems.InvalidIsSilent | skynet/skynet-src/socket_server.c:480-510 | once the socket is invalid nothing is written or reported any more |
| SocketRuns.LockIsReleased | skynet/skynet-src/socket_server.c:1813-1860 | from every state the thread that has dw_lock can go on until it is free |
| SocketSlot.Slot.ForceClose | skynet/skynet-src/socket_server.c:480-510 | frees the lists, waits for the lock while other threads take any steps, and leaves the socket invalid |
| SocketSlot.Slot.CloseWrite | skynet/skynet-src/socket_server.c:691-711 | closes, keeps quiet or reports, as the state machine does |
| SocketSlot.Slot.SendListTcp | skynet/skynet-src/socket_server.c:714-743 | the loop over a list does steps of the state machine for any results of write |
| SocketSlot.Slot.SendBufferLocked | skynet/skynet-src/socket_server.c:860-918 | the high list, then the low list, then raising, the assertion and the pending close |
| SocketSlot.Slot.SendBuffer | skynet/skynet-src/socket_server.c:921-946 | takes the lock and the package that was written directly, sends and unlocks |
| SocketSlot.Slot.TriggerWrite | skynet/skynet-src/socket_server.c:989-998 | asks for write events |
| SocketSlot.Slot.SendCommand | skynet/skynet-src/socket_server.c:1008-1077 | puts a package from the pipe into the list of its priority, or into the high one if both are empty, or drops it, and asks for write events, as the state machine does |
| SocketSlot.Slot.CloseSocket | skynet/skynet-src/socket_server.c:1129-1155 | closes at once or when everything is sent; the socket ends invalid, or closing and half closed |
| SocketSlot.Slot.ForwardMessage | skynet/skynet-src/socket_server.c:1402-1461 | data, end of file in each state, and what is reported |
| RwLock.RunKeeps | skynet/skynet-src/rwlock.h:19-46 | the invariant of the two counters holds in every interleaving of single atomic operations, with spuriously failing compare-and-swap |
| RwLock.Exclusion | skynet/skynet-src/rwlock.h:19-46 | past `rwlock_wlock` there is no reader past `rwlock_rlock` and no other writer |
| RwLock.CounterExact | skynet/skynet-src/rwlock.h:19-46 | `read` is the number of threads between their increment and their decrement |
| RwLock.NeverJams | skynet/skynet-src/rwlock.h:19-46 | whenever a thread can only spin, some other thread can move on |
| HandleMath.SlotsDouble | skynet/skynet-src/skynet_handle.c:35-73 | the assertion on the size of the table holds whenever it doubles below full size |
| HandleMath.SlotDouble | skynet/skynet-src/skynet_handle.c:62-68 | after doubling an entry stays or moves by the old size, so no two collide |
| HandleMath.HarborSlot | skynet/skynet-src/skynet_handle.c:35-73 | the harbor bits do not change the slot of a handle |
| HandleMath.ZeroTried | skynet/skynet-src/skynet_handle.c:42-58 | a round of the search tries slot zero if and only if it does not pass the last handle in its middle and the table is not of full size |
| HandleMath.OthersTried | skynet/skynet-src/skynet_handle.c:42-58 | and every other slot in any case |
| HandleMath.RoundTriesAll | skynet/skynet-src/skynet_handle.c:42-58 | so it tries all slots unless it leaves out slot zero |
| HandleTable.HandleStorage.DoublesExactly | skynet/skynet-src/skynet_handle.c:40-72 | when some slot is free, a registration doubles the table if and only if slot zero is the only free one and the round leaves it out |
| HandleTable.SparseTable | skynet/skynet-src/skynet_handle.c:40-72 | registrations and retirements after which a registration doubles the table although slot zero is free |
| HandleTable.CompareTransitive | skynet/skynet-src/skynet_handle.c:158-185 | the comparison of names is a strict order |
| HandleTable.WithoutMeans | skynet/skynet-src/skynet_handle.c:76-112 | dropping the names of a handle leaves the others |
| HandleTable.MeaningUnique | skynet/skynet-src/skynet_handle.c:158-185 | a sorted array of names stands for one map |
| HandleTable.HandleStorage.FindFree | skynet/skynet-src/skynet_handle.c:42-58 | finds the first handle of the round whose slot is free, or every slot tried is taken |
| HandleTable.HandleStorage.SomeFree | skynet/skynet-src/skynet_handle.c:40-72 | right after doubling a round finds a free slot: each registration doubles at most once |
| HandleTable.HandleStorage.Double | skynet/skynet-src/skynet_handle.c:59-71 | the table is rehashed without collisions and half of it is free |
| HandleTable.HandleStorage.Register | skynet/skynet-src/skynet_handle.c:35-73 | a new handle, distinct from all live ones, stands for the context: the first of the round on whose slot no other handle is; the table doubles, once, exactly when a round of the search meets no free slot |
| HandleTable.HandleStorage.Grab | skynet/skynet-src/skynet_handle.c:139-155 | exactly the context registered under the handle |
| HandleTable.HandleStorage.Retire | skynet/skynet-src/skynet_handle.c:76-112 | takes exactly that handle and its names out |
| HandleTable.HandleStorage.Search | skynet/skynet-src/skynet_handle.c:158-185 | binary search: where the name is, or where it belongs |
| HandleTable.HandleStorage.FindName | skynet/skynet-src/skynet_handle.c:158-185 | agrees with the map of names |
| HandleTable.HandleStorage.NameHandle | skynet/skynet-src/skynet_handle.c:214-246 | a new name is added to the map, a used one is refused |
| HandleTable.HandleStorage.InsertNameBefore | skynet/skynet-src/skynet_handle.c:188-211 | the array stays sorted, in place or in a bigger copy |
| NetpackFrames.ParseAppend | skynet/lualib-src/lua-netpack.c:228-307 | parsing may stop anywhere and go on with what was left over |
| NetpackFrames.ParsePacked | skynet/lualib-src/lua-netpack.c:183-215 | parsing what was packed gives the frames back |
| NetpackFrames.HeadMeans | skynet/lualib-src/lua-netpack.c:183-215 | the two bytes in front of a frame are its length, the high one first, and no other two are; a frame that is cut short is not complete |
| NetpackFrames.ParseExactly | skynet/lualib-src/lua-netpack.c:228-307 | a stream parses to some frames and a rest if and only if it is the packed frames followed by the rest, which holds no complete frame |
| NetpackFrames.ChunkIndependence | skynet/lualib-src/lua-netpack.c:228-307 | however the streams are cut into chunks and interleaved, every connection yields the parse of its concatenated bytes, and what is saved never holds a complete frame |
| Netpack.Queue.FindUncomplete | skynet/lualib-src/lua-netpack.c:93-114 | takes what was saved for a connection out of its chain |
| Netpack.Queue.SaveUncomplete | skynet/lualib-src/lua-netpack.c:170-180 | saves the state of a connection in its chain |
| Netpack.Queue.ExpandQueue | skynet/lualib-src/lua-netpack.c:134-148 | the full ring is copied in order |
| Netpack.Queue.PushData | skynet/lualib-src/lua-netpack.c:151-167 | appends a package to the ring, which grows when it is full |
| Netpack.Queue.PushMore | skynet/lualib-src/lua-netpack.c:189-215 | yields every complete frame and saves the rest |
| Netpack.Queue.FillUncomplete | skynet/lualib-src/lua-netpack.c:231-269 | a chunk behind a saved state yields what the saved bytes and the chunk parse to |
| Netpack.Queue.FilterFresh | skynet/lualib-src/lua-netpack.c:270-306 | a chunk of a connection with nothing saved |
| Netpack.Queue.FilterData | skynet/lualib-src/lua-netpack.c:228-307 | one chunk does one step of the parse, and the saved state is exactly the leftover |
| Netpack.Queue.Pop | skynet/lualib-src/lua-netpack.c:397-410 | takes the oldest package, if there is one |
| Netpack.Queue.CloseUncomplete | skynet/lualib-src/lua-netpack.c:218-225 | forgets what was saved for a connection |
| DesBlock.FinalUndoesInitial | skynet/lualib-src/lua-crypt.c:208-231 | DES_FP inverts DES_IP |
| DesBlock.InitialUndoesFinal | skynet/lualib-src/lua-crypt.c:208-231 | and DES_IP inverts DES_FP |
| DesBlock.RoundBack | skynet/lualib-src/lua-crypt.c:234-247 | one round with its own keys undoes itself, for arbitrary S-boxes |
| DesBlock.RoundsBack | skynet/lualib-src/lua-crypt.c:321-342 | sixteen rounds with the reversed keys undo sixteen rounds |
| DesBlock.CryptBack | skynet/lualib-src/lua-crypt.c:321-342 | decrypting a block undoes encrypting it |
| DesStandard.InitialIsStandard | skynet/lualib-src/lua-crypt.c:208-217 | DES_IP moves every bit where the initial permutation of FIPS 46-3 does, with both halves rotated by one |
| DesStandard.RoundIsStandard | skynet/lualib-src/lua-crypt.c:234-247 | box j of a round gets bits 4j-4 to 4j+1 of the half, cyclically, xored with its six bits of the subkey: the expansion of FIPS 46-3, in which neighbouring boxes share two bits |
| DesStandard.RoundsAreStandard | skynet/lualib-src/lua-crypt.c:321-342 | any number of rounds on rotated halves is as many rounds of the standard |
| DesStandard.CryptIsStandard | skynet/lualib-src/lua-crypt.c:321-342 | for all boxes and subkeys the initial permutation of the output is the sixteen rounds of the standard, with the halves exchanged, on the initial permutation of the input |
| DesStandard.StandardIPOnce | skynet/lualib-src/lua-crypt.c:208-231 | which determines the output |
| DesKeys.ChoiceIsStandard | skynet/lualib-src/lua-crypt.c:259-275 | the two tables and the shifts around them are the permuted choice 1 of FIPS 46-3 |
| DesKeys.TurnMoves | skynet/lualib-src/lua-crypt.c:281-290 | a turn of a half of 28 bits moves every bit one place to the left, and the first to the last |
| DesKeys.KeysAreStandard | skynet/lualib-src/lua-crypt.c:292-314 | the masks and shifts of the two words of a subkey are the permuted choice 2: each box gets the six bits that the standard names |
| DesKeys.ScheduleIsStandard | skynet/lualib-src/lua-crypt.c:251-316 | so for every key, round and box the six subkey bits are those of the standard |
| DesKeys.DesMainKs | skynet/lualib-src/lua-crypt.c:251-316 | fills the array with this schedule |
| DesBlock.DesCrypt | skynet/lualib-src/lua-crypt.c:321-342 | the unrolled rounds, two at a time with the halves in exchanged roles, compute the block cipher of `CryptIsStandard` |
| DesText.PaddingUnique | skynet/lualib-src/lua-crypt.c:386-418 | a text ends in at most one padding |
| DesText.RoundTrip | skynet/lualib-src/lua-crypt.c:462-517 | for every schedule, text and padding mode, decoding the encoded text gives the text and nothing else |
| DesText.DecodeExact | skynet/lualib-src/lua-crypt.c:488-517 | bytes decode to a text if and only if they are what the text is encoded to, and give the error if and only if no text is |
| DesText.AddPadding | skynet/lualib-src/lua-crypt.c:380-406 | fills the last block as the mode demands |
| DesText.RemoveIso7816 | skynet/lualib-src/lua-crypt.c:386-400 | finds the padding, or there is none |
| DesText.RemovePkcs7 | skynet/lualib-src/lua-crypt.c:409-418 | finds the padding, or there is none |
| DesText.DesEncode | skynet/lualib-src/lua-crypt.c:462-485 | pads and encrypts block by block |
| DesText.DesDecode | skynet/lualib-src/lua-crypt.c:488-517 | decrypts, checks and removes the padding, with all error cases |
| DesText.RoundTripRun | skynet/lualib-src/lua-crypt.c:462-517 | encoding and then decoding returns the text |
| ModArith.BitStep | skynet/lualib-src/lua-crypt.c:796-815 | one bit of the multiplier keeps the product modulo P |
| ModArith.DoubleWraps | skynet/lualib-src/lua-crypt.c:808-812 | doubling that wraps around 2^64 still gives 2a - P |
| ModArith.MulModP | skynet/lualib-src/lua-crypt.c:796-815 | a*b mod P for a <= P and every 64-bit b, without overflow |
| ModArith.PowModP | skynet/lualib-src/lua-crypt.c:818-828 | square and multiply |
| ModArith.PowResultReduced | skynet/lualib-src/lua-crypt.c:818-828 | the result is a^b modulo P, and at most P |
| ModArith.Powmodp | skynet/lualib-src/lua-crypt.c:832-836 | computes the result that the next lemma is about |
| ModArith.PowmodpExact | skynet/lualib-src/lua-crypt.c:832-836 | powmodp(a, b) is a^b mod P if and only if not a = P and b = 1 |
| ModArith.PublicNotZero | skynet/lualib-src/lua-crypt.c:871-888 | a public key is never zero modulo P |
| ModArith.SameSecret | skynet/lualib-src/lua-crypt.c:854-888 | both sides of the exchange compute the same secret, 5^(xy) mod P |
| SeriFormat.LittleBack | skynet/lualib-src/lua-seri.c:143-213 | reading back a little-endian number |
| SeriRoundTrip.IntegerBack | skynet/lualib-src/lua-seri.c:370-410 | an integer comes back from whichever of the widths it was written in |
| SeriRoundTrip.StringBack | skynet/lualib-src/lua-seri.c:191-213 | a string comes back, short or long |
| SeriRoundTrip.HeadBack | skynet/lualib-src/lua-seri.c:218-237 | the size of the array part comes back |
| SeriRoundTrip.PackedBack | skynet/lualib-src/lua-seri.c:478-542 | unpacking a packed value gives the value and leaves what follows it |
| SeriRoundTrip.ArrayBack | skynet/lualib-src/lua-seri.c:461-465 | the array part of a table comes back |
| SeriRoundTrip.HashBack | skynet/lualib-src/lua-seri.c:466-474 | the hash part of a table comes back |
| SeriRoundTrip.SameTable | skynet/lualib-src/lua-seri.c:445-475 | the table that comes back maps every key that is no table to what comes back for its value |
| SeriRoundTrip.SameBack | skynet/lualib-src/lua-seri.c:304-475 | what comes back is the same value, at every depth: the same keys with the same values, and keys that are tables in the same order |
| SeriRoundTrip.PackFits | skynet/lualib-src/lua-seri.c:304-350 | packing succeeds if and only if the value is nested at most MAX_DEPTH deep |
| SeriRoundTrip.RoundTrip | skynet/lualib-src/lua-seri.c:566-622 | a list of values is packed if and only if it is nested at most MAX_DEPTH deep, and then unpacks to the same values |
| SeriExact.LittleDigit | skynet/lualib-src/lua-seri.c:143-213 | byte j of a number is its digit of weight 256^j |
| SeriExact.UnpackMore | skynet/lualib-src/lua-seri.c:478-542 | a value is read in the same way whatever follows it |
| SeriExact.CutIsRefused | skynet/lualib-src/lua-seri.c:119-128 | a packed value that is cut short anywhere is refused |
| SeriExact.ShortestInteger | skynet/lualib-src/lua-seri.c:143-174 | of all streams that are read as an integer the one that is written is the shortest, and the only one of its length |
| SeriExact.ShortestString | skynet/lualib-src/lua-seri.c:191-213 | the same for strings |
| SeriExact.UnpackedIsPackable | skynet/lualib-src/lua-seri.c:370-542 | whatever is read from less than 2^31 bytes, well-formed or not, may be packed again: integers fit, and tables have no nil and no key twice |
| Seri.WriteBlock.Push | skynet/lualib-src/lua-seri.c:66-85 | appends bytes to the logical stream, across 128-byte blocks |
| Seri.WriteBlock.Flatten | skynet/lualib-src/lua-seri.c:545-563 | copying the chain out gives the logical stream |
| Seri.PutInteger | skynet/lualib-src/lua-seri.c:143-174 | chooses the width of an integer |
| Seri.PutString | skynet/lualib-src/lua-seri.c:191-213 | chooses the form of a string |
| Seri.PackOne | skynet/lualib-src/lua-seri.c:304-350 | packs one value, or fails when it is too deep |
| Seri.PutArray | skynet/lualib-src/lua-seri.c:218-237 | packs the array part |
| Seri.PutHash | skynet/lualib-src/lua-seri.c:240-257 | packs the hash part without the keys of the array part |
| Seri.ReadBlock.Read | skynet/lualib-src/lua-seri.c:119-128 | takes bytes off the stream, if there are enough |
| Seri.ReadBlock.UnpackOne | skynet/lualib-src/lua-seri.c:534-542 | unpacks one value or reports an invalid stream |
| Seri.ReadBlock.UnpackTable | skynet/lualib-src/lua-seri.c:445-475 | unpacks both parts of a table |
| Seri.LuaseriPack | skynet/lualib-src/lua-seri.c:610-622 | packs all values |
| Seri.LuaseriUnpack | skynet/lualib-src/lua-seri.c:566-607 | unpacks all values |
| Seri.RoundTripRun | skynet/lualib-src/lua-seri.c:566-622 | packing and unpacking gives the values back, or nothing when they are too deep |
| SharedataHash.PlaceMain | skynet/lualib-src/lua-sharedata.c:213-235 | placing a key in its free main slot keeps the layout |
| SharedataHash.PlaceColliding | skynet/lualib-src/lua-sharedata.c:238-273 | chaining a colliding key into a free slot keeps the layout |
| SharedataHash.ChainDistinct | skynet/lualib-src/lua-sharedata.c:503-531 | chains never return to their head, so lookups end |
| SharedataHash.WhereInChain | skynet/lualib-src/lua-sharedata.c:503-531 | every node is in the chain of its main slot |
| SharedataHash.HeldIsFound | skynet/lualib-src/lua-sharedata.c:503-531 | a key that is in some slot is found in the chain of its main slot |
| SharedataHash.FromMain | skynet/lualib-src/lua-sharedata.c:503-531 | following the links from a main slot finds the key, also when the slot belongs to another chain |
| SharedataFill.CountSize | skynet/lualib-src/lua-sharedata.c:68-89 | an error if there is a key that is no integer, string or table; else the number of pairs whose key, before the cast, is not in the array part |
| SharedataFill.FirstStep | skynet/lualib-src/lua-sharedata.c:213-235 | one key of the first pass: the first pair of a main position takes it |
| SharedataFill.SecondStep | skynet/lualib-src/lua-sharedata.c:238-273 | one key of the second pass that is not at its main position |
| SharedataFill.SlotIsFree | skynet/lualib-src/lua-sharedata.c:253-260 | the second pass always finds a free slot, with as many slots as countsize says, whatever the cast merges |
| Sharedata.Table.FillNoColliding | skynet/lualib-src/lua-sharedata.c:213-235 | fills the array part and the free main slots, with the keys after the cast |
| Sharedata.Table.FillColliding | skynet/lualib-src/lua-sharedata.c:238-273 | chains all other keys |
| Sharedata.Convert | skynet/lualib-src/lua-sharedata.c:278-326 | any source table is converted, or countsize reports an error |
| Sharedata.Table.LookupKey | skynet/lualib-src/lua-sharedata.c:503-531 | the slot of a hash key, or none |
| Sharedata.Table.IndexConf | skynet/lualib-src/lua-sharedata.c:534-567 | what the table holds for the key after the cast, or an error if it is no integer and no string |
| Sharedata.SourceIsReady | skynet/lualib-src/lua-sharedata.c:503-567 | the lookup of a key of the source table starts at a slot that was filled |
| Sharedata.GetMeans | skynet/lualib-src/lua-sharedata.c:213-273 | a lookup finds something exactly for the keys that some source key becomes, and then the value of such a pair |
| Sharedata.FindsExactly | skynet/lualib-src/lua-sharedata.c:192-210 | every source key is found with its value, as what it has become, if and only if keys that merge have the same value |
| Sharedata.FilledExactly | skynet/lualib-src/lua-sharedata.c:213-273 | every slot is filled if and only if every counted pair is still outside the array part after the cast and was not taken for a pair before it at its main position |
| Sharedata.FilledWhenInjective | skynet/lualib-src/lua-sharedata.c:213-273 | when no keys merge, if and only if the cast moves none into the array part |
| Sharedata.MergedKeys | skynet/lualib-src/lua-sharedata.c:192-273 | a table that loses a key and leaves a slot empty |
| Sharedata.MergedTable | skynet/lualib-src/lua-sharedata.c:192-273 | a table in which the empty string gets the value of a key that is a table |
| Sharedata.MovedKey | skynet/lualib-src/lua-sharedata.c:192-273 | a table whose array value is replaced, and whose only slot stays empty |
| Sharedata.OrderIsTable | skynet/lualib-src/lua-sharedata.c:591-647 | the order of traversal has the keys of the source table, each once, if and only if none of them is a table and all integers fit 32 bits |
| Sharedata.Table.NextKey | skynet/lualib-src/lua-sharedata.c:591-647 | the key that follows in this order, or none, or an error |
| Sharedata.Keys | skynet/lualib-src/lua-sharedata.c:591-647 | calling nextkey from the start visits every key exactly once and ends |

## Left out

LPeg:
- Captures, run-time captures and the ktable, which do not change what is matched up to where.
- The limit MAXBACK of the backtrack stack; the stack is unbounded.
- `fixonecall` and the buffers in which trees are built: trees come finished, with calls resolved and what
  lptree.c checks (`WellFormed`) given.
- Sets of characters are mathematical sets, not 32-byte buffers; an instruction's operands are part of its first
  slot and the slots behind it are padding.
- Look-behinds have call-free bodies, as the source demands.

Scheduler:
- Registering a service and storing its handle are one step, and handles are not reused.
- A write to a deleted context goes to a record that outlives it; what the freed memory would be is not modelled.
- `skynet_context_dispatchall`, profiling, the monitor and the endless flag.
- The C memory model: steps are sequentially consistent, except that rwlock.h is modelled operation by operation.

Timer:
- TimerRuns.FiresExactly: delays above 2^31-1 and the immediate dispatch of delays of zero or less in
  `skynet_timeout` are not covered, because `timer_add` is not called for the latter and takes an `int`.
- `skynet_updatetime`, which only decides how many ticks there are.

Socket:
- UDP, user-object buffers, sends before SOCKET_OPEN, events and commands of a slot that is reused, the bind
  type and warnings.
- The commands that pause and resume reading. They switch read events off and on and change nothing that is
  written; resuming a socket that is half closed reports an error.
- Slot: other threads take steps only where its methods wait for them; all other interleavings are those of the
  state machine. The sending threads have no methods of their own, only steps.
- Concurrent senders are numbered by their calls; low-priority packages by their entry into the pipe.

Others:
- HandleTable does not model `skynet_handle_retireall`; contexts are opaque, and callers hold the lock.
- DesBlock takes the eight combined S-box tables as parameters; that their entries are those of FIPS 46-3, with its
  permutation P, is not stated.
- DesText.RemovePkcs7: for a padding byte greater than the text the source reads before its buffer; the model stops
  at the start of the text. The outcome is an error in both.
- ModArith.PowModP: for the exponent zero the source does not terminate; its callers exclude it, and so does the
  model.
- Netpack: the Lua values around a package, and `lclear`.
- Seri: tables with a `__pairs` metamethod, userdata and the unwinding of an error; reals and pointers are eight
  opaque bytes, also as keys; the machine is little-endian. A table that occurs twice is packed, and comes back,
  as two tables.
- Sharedata.Table.LookupKey: requires that the slot where it starts was filled, because the source does not
  initialize the others. It always was for keys of the source table, and for all keys when every slot is filled.
- Sharedata: the interning of strings is left out (keys hold their strings), as are reference counts and updates.
