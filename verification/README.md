# Verified model of the gateway, console, report and book cores

This project models the parts of the repository whose correctness depends on more than one function body, and
proves what they are for.  Each module stands for one source component.

* **Operator sessions.**  `OperatorToken`, `OperatorAuth` and `OperatorRuns` model the http-gateway's signed
  `ost.<payload>.<signature>` sessions: the codec down to bytes (base64url of section 5 of RFC 4648, UTF-8 of
  section 3 of RFC 3629, JSON strings of section 7 of RFC 8259), the session endpoint, the `/operator` gate, and
  runs of both under a monotone clock.  The keyed digest is an ideal signer: a caller can show the signature of a
  payload only after the endpoint signed that payload.  `ConsoleClient` adds the console's cached session, its
  concurrent calls and its clock, and composes both sides.
* **Trial gateway.**  `TrialEngine` holds the rules of the trial engine and says when it throws.  `TrialGateway` is a
  class with the capped evidence buffer, the map of deferred approvals and the swappable policy source.  It refines a
  machine that remembers everything; safety is proved over every run of that machine.
* **Canonical report, labels, output cap.**  `CanonicalReport` models the canonical printer behind the report hash,
  `JsonText` the parser that inverts it, `PrometheusLabel` the label escaper and its lexer, `CapOutput` the byte cap
  on sandbox output, over the strings, scalars and bytes of `Unicode`.
* **Book scripts.**  `ProsePolish` and `BulletCollapse` rewrite and remove the nodes of `BodyNodes` in place and are
  proved against passes over the values of `Blocks`; `BulletRuns` says which runs the collapse leaves, `BulletText` that
  it loses no text, and `PolishText` what cleaning does to a text.  `ScientificMerge` is the merge pass with its two-run
  driver, on the white space algebra of `BookText`.  `ChapterRewrite` inserts, moves and deletes nodes of a document
  tree.
* **Numbers.**  `Similarity` (cosine of word counters), `Latency` (nearest-rank percentiles and summaries) and
  `Assurance` (postures of missions and of the system).

What the code does differs from what its documentation or its names suggest in these places; the model follows the
code, and the condition is proved.

* `capOutput` returns a stream that fits unchanged only if the stream has no lone surrogate; a longer stream can
  also come back unchanged when all that is cut is the tail of a final U+FFFD (`CapOutput.CutStreamUnchanged`,
  `CapOutput.LoneSurrogateChanges`).
* A bearer token with extra dot-separated segments behind its signature is accepted, though a malformed bearer is
  documented to be refused.  An accepted token has the documented shape exactly when it has three segments
  (`OperatorToken.AcceptedShape`, `OperatorToken.ExtraSegmentsIgnored`).
* A request is recorded only if the trial engine returns.  A policy text that does not parse, an intent without
  parameters, and a permit whose warrant would expire at no date make it throw, and then nothing changes: an approval
  can be lost that way while its token stays pending (`TrialGateway.StepAddsOneRecord`,
  `TrialGateway.ApprovalSettlesExactly`, `TrialGateway.SoonStaysPending`).
* `clean_item` of the collapse script keeps an ordinary bullet, because its pattern asks for a backslash after the mark
  (`BulletCollapse.ItemKeepsItsMark`).
* `clean_item` of the polish script drops a leading lower-case ASCII letter, because its class of marks spans the
  range from the backslash to the en dash (`ProsePolish.ItemKeepsItsStart`, `ProsePolish.GateBecomesAte`).  A leading
  hyphen, which that range leaves out, stays (`PolishText.LeadsExactly`).
* The bullet collapse can leave a run of three compact paragraphs, around a paragraph that shows just a bullet, a
  bullet with a colon, or a colon, when items are folded into it.  One scan of the input tells exactly when
  (`BulletRuns.NoLongRunExactly`, `BulletCollapse.FoldStartsBullet`, `BulletRuns.FragileTextsFail`).
* The reader map comes out in reverse order (`ChapterRewrite.ReaderMap.Insert`, `ChapterRewrite.ReaderMapStrandsItsHeading`).
* The console's margin of 30000 ms is tight together with the skew: the token is accepted for up to one further
  millisecond and refused after it (`ConsoleClient.MarginIsTight`).

## Model

| member | source | states |
|---|---|---|
| CanonicalReport.CanonicalForm | extracted/examples/reviewer/verify.ts:91-98 | two values print the same text exactly when they are equal after forgetting key order, dropping undefined fields and reading other undefineds as null |
| CanonicalReport.ParsePrinted | extracted/examples/reviewer/verify.ts:91-98 | a parser inverts the printer: the text of every nested value parses to exactly its meaning |
| CanonicalReport.ReadPrinted | extracted/examples/reviewer/verify.ts:91-98 | the reader stops at the end of a printed value, whatever text follows it |
| CanonicalReport.SameMeaningSameText | extracted/examples/reviewer/verify.ts:91-98 | values of the same meaning print the same text, in whatever order their keys were inserted |
| CanonicalReport.AscendingUnique | extracted/examples/reviewer/verify.ts:96 | sorting the keys is canonical: two ascending lists of the same keys are one list |
| CanonicalReport.SortKeysSorted | extracted/examples/reviewer/verify.ts:96 | the key sort is ascending in the order of `KeyLess` and keeps exactly the keys; `KeyLessExactly` says what that order is |
| CanonicalReport.KeyLessExactly | extracted/examples/reviewer/verify.ts:96 | one key comes before another exactly when, at the first place where they differ, it has ended or has the smaller code unit |
| CanonicalReport.PrintedOrder | extracted/examples/reviewer/verify.ts:94-97 | a printed object lists exactly its defined keys, each once, and of two of them the one with the smaller code unit at the first difference stands first |
| CanonicalReport.SampleReport | extracted/examples/reviewer/verify.ts:94-97 | the object with b inserted before a prints {"a":1,"b":2} |
| CanonicalReport.ReportHash | extracted/examples/reviewer/verify.ts:91-102 | the hash of the UTF-8 bytes stands for the report: with a digest that is collision-free on bytes, equal hashes mean equal reports and conversely |
| CanonicalReport.PrintedWellFormed | extracted/examples/reviewer/verify.ts:91-102 | the printed text has no lone surrogate even when the strings do, so its bytes determine it |
| JsonText.ReadQuoted | extracted/examples/reviewer/verify.ts:93-97 | a quoted string of any code units, lone surrogates too, reads back whole and the reader stops behind its closing quote |
| JsonText.PlainTextStays | extracted/examples/reviewer/verify.ts:93-97 | text without quotes, backslashes, control units and surrogates is printed as it is |
| JsonText.EscapeExactly | extracted/examples/reviewer/verify.ts:93-97 | a quote, a backslash and five control units are escaped by a letter of their own; any other control unit and a lone surrogate by a backslash, a u and four lower-case hexadecimal digits |
| JsonText.EscapeTextWellFormed | extracted/adapters/http-gateway/src/operator-auth.ts:147-148 | string escaping leaves no lone surrogate, so the payload text survives UTF-8 |
| JsonText.ParseStringObject | extracted/adapters/http-gateway/src/operator-auth.ts:147-178 | an object of string fields parses back to its fields |
| Unicode.TextRoundTrip | extracted/examples/sandboxes/remote-sandbox.ts:47-54 | a string survives the trip through scalar values exactly when it has no lone surrogate |
| Unicode.DecodeEncode | extracted/examples/sandboxes/remote-sandbox.ts:47-54 | the UTF-8 decoder undoes the encoder on every scalar sequence |
| Unicode.DecodeCutScalar | extracted/examples/sandboxes/remote-sandbox.ts:50-51 | a character cut anywhere inside decodes to a single U+FFFD |
| Unicode.Utf8RoundTrip | extracted/adapters/http-gateway/src/operator-auth.ts:148-176 | text survives the trip through bytes exactly when it has no lone surrogate |
| CapOutput.CutStreamExact | extracted/examples/sandboxes/remote-sandbox.ts:47-54 | for every stream and budget, the result is the one longest whole-character prefix within the cut, then one U+FFFD exactly when the cut fell inside a character |
| CapOutput.CutEndExactly | extracted/examples/sandboxes/remote-sandbox.ts:50-51 | a budget keeps that many bytes or all there are; a negative one drops that many at the end, or all |
| CapOutput.CutStreamSize | extracted/examples/sandboxes/remote-sandbox.ts:47-54 | the UTF-8 size of a cut stream is at most two bytes over the budget |
| CapOutput.CutStreamSizeTight | extracted/examples/sandboxes/remote-sandbox.ts:47-54 | that bound is reached |
| CapOutput.CutStreamUnchanged | extracted/examples/sandboxes/remote-sandbox.ts:47-54 | a stream comes back unchanged exactly when it has no lone surrogate and nothing of it is lost |
| CapOutput.FlagClear | extracted/examples/sandboxes/remote-sandbox.ts:48-52 | with the flag clear, both streams come back unchanged exactly when neither has a lone surrogate |
| CapOutput.FlagTellsDroppedBytes | extracted/examples/sandboxes/remote-sandbox.ts:48-52 | the flag is set exactly when some stream lost bytes or the budget is negative |
| CapOutput.LoneSurrogateChanges | extracted/examples/sandboxes/remote-sandbox.ts:47-54 | a stream within the budget that does not come back unchanged |
| Base64Url.RoundTrip | extracted/adapters/http-gateway/src/operator-auth.ts:147-176 | base64url decoding undoes encoding on every byte sequence |
| Base64Url.EncodeLetters | extracted/adapters/http-gateway/src/operator-auth.ts:147-167 | an encoding holds letters of the url alphabet only: no dot, no plus and no slash |
| OperatorToken.TokenRoundTrip | extracted/adapters/http-gateway/src/operator-auth.ts:147-182 | parsing a created token returns the same claims, for every claims value; without a secret nothing parses |
| OperatorToken.PayloadRoundTrip | extracted/adapters/http-gateway/src/operator-auth.ts:147-176 | a payload decodes to exactly the claims it was made from |
| OperatorToken.PayloadText | extracted/adapters/http-gateway/src/operator-auth.ts:147-148 | the payload is the JSON object of actor, role, issuedAt, expiresAt and sessionId, in this order |
| OperatorToken.CreatedTokenParts | extracted/adapters/http-gateway/src/operator-auth.ts:157-167 | splitting a created token at its dots yields exactly the prefix, the payload and the signature |
| OperatorToken.TokenInjective | extracted/adapters/http-gateway/src/operator-auth.ts:157-161 | created tokens determine their claims |
| OperatorToken.ParsedTokenIsSigned | extracted/adapters/http-gateway/src/operator-auth.ts:163-182 | a token that parses carries the true signature of its own payload, unit for unit |
| OperatorToken.ExtraSegmentsIgnored | extracted/adapters/http-gateway/src/operator-auth.ts:167 | segments behind the signature do not change how a created token parses |
| OperatorToken.AcceptedShape | extracted/adapters/http-gateway/src/operator-auth.ts:163-182 | an accepted token has the documented shape, prefix, payload and true signature, exactly when it has three dot-separated segments |
| OperatorAuth.TrimTrims | extracted/adapters/http-gateway/src/operator-auth.ts:184-211 | trimming leaves no white space at either end and keeps a trimmed header |
| OperatorAuth.TrimExactly | extracted/adapters/http-gateway/src/operator-auth.ts:184-211 | trimming cuts exactly the white space before the first and behind the last other unit |
| OperatorAuth.BearerInAnyCase | extracted/adapters/http-gateway/src/operator-auth.ts:184-201 | a bearer header is recognised in any case of its six letters, with the blank behind them |
| OperatorAuth.ActorComesFrom | extracted/adapters/http-gateway/src/operator-auth.ts:203-208 | a header that is not blank names the actor, whatever the body says; otherwise a body actor that is not blank, and otherwise http-gateway |
| OperatorAuth.RoleComesFrom | extracted/adapters/http-gateway/src/operator-auth.ts:210-211 | a header that is not blank names the role, and otherwise the default role |
| OperatorAuth.CredentialComesFrom | extracted/adapters/http-gateway/src/operator-auth.ts:184-192 | a key header that is not blank is the credential, and otherwise the bearer value |
| OperatorAuth.AllowedExactly | extracted/adapters/http-gateway/src/operator-auth.ts:260-275 | which lists a method is held to, and that an empty list of actors admits everybody while an empty list of roles admits nobody |
| OperatorAuth.ActorIsNamed | extracted/adapters/http-gateway/src/operator-auth.ts:203-208 | the actor read from a request is never empty and already trimmed |
| OperatorAuth.GateForwards | extracted/adapters/http-gateway/src/operator-auth.ts:296-366 | a request reaches the handlers exactly when no key is configured, its session is in its window and matches and meets the lists, or its key is right where a key is enough |
| OperatorAuth.EndpointIssues | extracted/adapters/http-gateway/src/operator-auth.ts:244-294 | a session is issued exactly to a caller with the right key whom the lists of the method admit, and names that caller |
| OperatorAuth.EmptyIsUnset | extracted/adapters/http-gateway/src/operator-auth.ts:244-331 | without a key, or with an empty one, the gate is open and the endpoint answers 503; without a secret the endpoint answers 503 and every session is refused |
| OperatorAuth.SessionEndpoint | extracted/adapters/http-gateway/src/operator-auth.ts:244-294 | the handler answers once, with the specified status, error or session |
| OperatorAuth.ValidateClaims | extracted/adapters/http-gateway/src/operator-auth.ts:215-242 | returns the first thing wrong with a session, in the order of the checks, and nothing exactly when it is in its window and matches |
| OperatorAuth.Middleware | extracted/adapters/http-gateway/src/operator-auth.ts:296-366 | the gate answers or forwards once, with the specified outcome |
| OperatorRuns.SessionSafety | extracted/adapters/http-gateway/src/operator-auth.ts:163-366 | over every run, a request let through on a session carries the actor and role of an earlier login with the right key, falls inside that login's skewed window and meets the lists of its own method |
| OperatorRuns.HonestRunsAreIdeal | extracted/adapters/http-gateway/src/operator-auth.ts:150-182 | a run in which callers show only tokens they were given meets the ideal-signer assumption |
| OperatorRuns.LoginThenReadWorks | extracted/adapters/http-gateway/src/operator-auth.ts:244-331 | a login and a read with its session is such a run, and the read is let through exactly when the lists admit the operator to read |
| OperatorRuns.NoLoginNoSession | extracted/adapters/http-gateway/src/operator-auth.ts:163-366 | without any login nothing is ever let through on a session |
| OperatorRuns.IssuedTokenDecision | extracted/adapters/http-gateway/src/operator-auth.ts:215-331 | for an issued token, exactly the time window, the match of actor and role and the lists of the method decide |
| OperatorRuns.NestedListsSuffice | extracted/adapters/http-gateway/src/operator-auth.ts:215-331 | with nested lists every issued session is accepted for its actor and role, on every method, all through its window |
| OperatorRuns.EverySessionWorksExactly | extracted/adapters/http-gateway/src/operator-auth.ts:69-331 | for a loaded configuration that acceptance holds exactly when the lists are nested or nobody can log in |
| OperatorRuns.UnreadableSession | extracted/adapters/http-gateway/src/operator-auth.ts:244-331 | an actor and role that may log in but may not read break some session |
| ConsoleClient.OperatorSession.Begin | extracted/apps/console-ui/src/gateway-client.ts:495-501 | the first uninterrupted piece of a call is one step of the world of console and gateway; a cached token goes out only if the gateway granted it and it expires more than the margin later |
| ConsoleClient.OperatorSession.Finish | extracted/apps/console-ui/src/gateway-client.ts:510-516 | the second piece sets both variables from the answer at hand, a failed answer changes neither, and with an answer of the gateway it is one step of the world |
| ConsoleClient.CachedExactly | extracted/apps/console-ui/src/gateway-client.ts:495-501 | a cached token goes out exactly for a complete operator, a token that is there and more than 30000 ms left |
| ConsoleClient.UnreadableExpiryFetches | extracted/apps/console-ui/src/gateway-client.ts:514-516 | a session whose expiry cannot be read is not reused |
| ConsoleClient.IdentityIsRead | extracted/apps/console-ui/src/gateway-client.ts:502-540 | the gateway reads the configured actor and role from every request of the console, with or without a session, whatever the body says, and the key from the login and from a request without a session |
| ConsoleClient.PartialIdentityIsRead | extracted/apps/console-ui/src/gateway-client.ts:526-535 | for what the console does not have, the gateway falls back on its defaults |
| ConsoleClient.InterleavingsAreSafe | extracted/apps/console-ui/src/gateway-client.ts:495-517 | under every interleaving the cached token and expiry come from one answer of the gateway, and every token handed out expires more than 30000 ms after its hand-out |
| ConsoleClient.GrantedTokenDecision | extracted/apps/console-ui/src/gateway-client.ts:519-540 | a request with a granted token passes the gate exactly when it arrives in the window, the actor read from it is the one read at the login, and the lists admit that operator; for a configured operator the actor matches even when the body names another |
| ConsoleClient.CachedTokenIsAccepted | extracted/apps/console-ui/src/gateway-client.ts:495-540 | whatever the interleaving was, a cached token handed out passes the time check as long as drift and latency are at most 30001 ms plus the skew, and then the lists decide, also for a request whose body names another actor |
| ConsoleClient.MarginIsTight | extracted/apps/console-ui/src/gateway-client.ts:499-501 | whenever the gateway would issue a session, some run hands its token out so late that one millisecond over the bound the gate refuses it |
| ConsoleClient.GrantRunsOut | extracted/apps/console-ui/src/gateway-client.ts:499-501 | any granted token is handed out up to the last moment before its margin, and refused one millisecond over the bound |
| TrialGateway.EveryRunKeepsInvariant | extracted/adapters/http-gateway/src/trial-api.ts:93-200 | over every run, with requests on which the engine throws among them, the log is one hash chain, each token is resolved at most as often as it was deferred, each pending key is its entry's own token and its entry is one the rules defer, each resolution was decided under the source of the latest deferral, the active source validates, and each record is what the engine returned for the input it was called on |
| TrialGateway.StepKeepsInvariant | extracted/adapters/http-gateway/src/trial-api.ts:93-200 | every request keeps that invariant |
| TrialGateway.NoRunLogsOverTheLimits | extracted/adapters/http-gateway/src/trial-api.ts:93-176 | no run logs a permit or a deferral whose action is not permitted or is denied, or whose amount is over the limits of the policy it was decided under; and none logs a permit in the range that asks for approval without one |
| TrialGateway.RunsWithOneTip | extracted/adapters/http-gateway/src/index.ts:604-629 | two runs whose newest records carry the same hash have the same length and agree, record by record, on the decision and the hashes of action, authority and policy, or the hash has a collision |
| TrialGateway.StepAddsOneRecord | extracted/adapters/http-gateway/src/trial-api.ts:93-176 | evaluate, execute, approve and deny add exactly one record if and only if the engine returns, a resolution only for a pending token; otherwise nothing changes and a pending token stays pending; reads add none |
| TrialGateway.ResolveOnce | extracted/adapters/http-gateway/src/trial-api.ts:144-176 | an answer settles its token or changes nothing, and a second answer to a settled token finds nothing and changes nothing |
| TrialGateway.ApprovalSettlesExactly | extracted/adapters/http-gateway/src/trial-api.ts:144-159 | in every reachable state an approval settles its pending token, with one record of a permit, if and only if the expiry of the warrant is a date; otherwise it throws and nothing changes |
| TrialGateway.DenialSettles | extracted/adapters/http-gateway/src/trial-api.ts:161-176 | in every reachable state a denial settles its pending token, with one record of a denial |
| TrialGateway.ActiveSourceReturnsExactly | extracted/adapters/http-gateway/src/index.ts:613-629 | under the active source evaluate and execute add a record exactly for an intent that has parameters and, if it is permitted, a warrant that expires at a date |
| TrialGateway.BodyIntentExactly | extracted/adapters/http-gateway/src/index.ts:614-616 | the intent of the body goes first, then the first scenario of the named id, and otherwise the first scenario of all |
| TrialGateway.EmptyPolicyAddsNothing | extracted/adapters/http-gateway/src/index.ts:613-629 | an evaluation with the policy text "" adds no record and changes nothing |
| TrialGateway.SoonStaysPending | extracted/adapters/http-gateway/src/trial-api.ts:144-176 | a deferred intent whose time is the word "soon" is recorded, no approval settles it, and a denial does |
| TrialEngine.EvaluationFacts | extracted/shared/trial-engine/src/index.ts:397-531 | a returned evaluation carries the previous hash it was given, a warrant exactly when it permits and a token exactly when it defers |
| TrialEngine.DecisionExactly | extracted/shared/trial-engine/src/index.ts:419-480 | each decision in terms of the fields of the policy: fail closed, deny, defer or permit |
| TrialEngine.CodeExactly | extracted/shared/trial-engine/src/index.ts:419-480 | the code of a failure, a deferral and a permit in terms of the policy and the answer |
| TrialEngine.DenialExactly | extracted/shared/trial-engine/src/index.ts:438-463 | under a policy in force the code of a denial names the first thing that stands against it, in the order of the checks |
| TrialEngine.ReturnedIsWarranted | extracted/shared/trial-engine/src/index.ts:397-531 | a returned permit or deferral has its action among the permitted and not among the denied ones and its amount within both limits, and a permit in the range that asks for approval has one |
| TrialEngine.LargeRefundIsDenied | extracted/shared/trial-engine/src/index.ts:449-453 | a refund of 12000 under a limit of 10000 is denied whatever the operator answers |
| TrialEngine.TimesExactly | extracted/shared/trial-engine/src/index.ts:406-407 | the record and the warrant bear the given time, or else the time of the intent, or else that of the clock, and the warrant expires the seconds of the policy after it |
| TrialEngine.SameHashSameMaterial | extracted/shared/trial-engine/src/index.ts:500-504 | equal record hashes mean equal materials, or the hash has a collision |
| TrialEngine.BoundExactly | extracted/shared/trial-engine/src/index.ts:381-387 | a parsed policy validates exactly when none of the five errors is found |
| TrialEngine.ReturnsExactly | extracted/shared/trial-engine/src/index.ts:394-531 | under a source that parses, the engine throws exactly on an intent without parameters and on a permitted one whose warrant would expire at no date |
| TrialEngine.AnswerToDeferred | extracted/shared/trial-engine/src/index.ts:394-497 | on a deferred action a denial is always a denial, and an approval permits or throws |
| TrialEngine.DeferredOnly | extracted/shared/trial-engine/src/index.ts:436-480 | whatever an operator answered, what is deferred is what the rules defer without an answer |
| TrialEngine.ValidNeverUnbound | extracted/shared/trial-engine/src/index.ts:372-480 | under a source that validates, an evaluation fails closed exactly when the authority is revoked, never for a missing binding |
| TrialEngine.UnnamedBlockThrows | extracted/shared/trial-engine/src/index.ts:306-405 | a source that does not name one of the five blocks makes the engine throw, whatever the intent |
| TrialGateway.PolicyChangesDoNotReachPending | extracted/adapters/http-gateway/src/trial-api.ts:144-200 | policies applied between a deferral and its resolution do not change what is decided |
| TrialGateway.NewestExact | extracted/adapters/http-gateway/src/index.ts:608-611 | the buffer holds the newest records of the log, in reverse order, up to the cap |
| TrialGateway.UnshiftPop | extracted/adapters/http-gateway/src/index.ts:608-611 | putting a record first and popping over the cap keeps exactly the newest records |
| TrialGateway.BufferIsLinked | extracted/adapters/http-gateway/src/index.ts:604-629 | each record in the buffer names the hash of the next one as its previous hash |
| TrialGateway.Gateway.AppendTrialRecord | extracted/adapters/http-gateway/src/index.ts:608-611 | the buffer stays the newest part of the log with the record added |
| TrialGateway.Gateway.EvaluateTrialRequest | extracted/adapters/http-gateway/src/index.ts:613-629 | refines one evaluation step of the history and returns what the engine decided under the requested or active source; when the engine throws nothing changes |
| TrialGateway.Gateway.EvaluateAction | extracted/adapters/http-gateway/src/trial-api.ts:93-95 | the same for the evaluate handler, which passes no approval |
| TrialGateway.Gateway.Execute | extracted/adapters/http-gateway/src/trial-api.ts:97-109 | the same for the execute handler; the status is 200 for a permit, which comes with a warrant, 202 for a deferral, 409 for a refusal and 500 when the engine throws |
| TrialGateway.Gateway.ResolveDeferred | extracted/adapters/http-gateway/src/trial-api.ts:144-176 | a pending approval is decided under its stored source and intent and then gone; an unknown one, or one on which the engine throws, changes nothing |
| TrialGateway.Gateway.Approve | extracted/adapters/http-gateway/src/trial-api.ts:144-159 | approval with full or reduced authority as one step of the history: it permits and settles its token, or throws and leaves it pending |
| TrialGateway.Gateway.Refuse | extracted/adapters/http-gateway/src/trial-api.ts:161-176 | denial as one step of the history: every pending token can be denied |
| TrialGateway.Gateway.Apply | extracted/adapters/http-gateway/src/trial-api.ts:190-200 | the source changes exactly when the candidate validates, it then parses again, and records and approvals stay |
| TrialGateway.Gateway.Replay | extracted/adapters/http-gateway/src/trial-api.ts:122-131 | a replay evaluates from the given or genesis hash, changes nothing, and under the active source throws exactly where the engine does |
| TrialGateway.Gateway.FindRecord | extracted/adapters/http-gateway/src/trial-api.ts:113-120 | finds the newest logged record of an id among the last hundred, or none is there |
| TrialGateway.Gateway.AuditTail | extracted/adapters/http-gateway/src/trial-api.ts:111 | returns the newest twenty-five records of the log |
| PrometheusLabel.SequenceIsOnePass | extracted/adapters/http-gateway/src/index.ts:184 | the three replacements in a row equal one substitution per character |
| PrometheusLabel.LabelRoundTrip | extracted/adapters/http-gateway/src/index.ts:184-208 | a label-value lexer returns the original string and stops at the right closing quote, whatever text follows |
| PrometheusLabel.EscapeInjective | extracted/adapters/http-gateway/src/index.ts:196-208 | different names render as different label values |
| BookText.NormalizeIsJoinedWords | extracted/apps/website/scripts/make-gplane-scientific-edition.py:79-80 | normalizing a text is joining its words by single blanks |
| BookText.WordsConcat | extracted/apps/website/scripts/make-gplane-scientific-edition.py:79-80 | the words of two texts joined by a blank are the words of the one and then of the other |
| BookText.NormalizePair | extracted/apps/website/scripts/make-gplane-scientific-edition.py:145-151 | the joined text of two paragraphs is already normalized and holds the words of both |
| ScientificMerge.Document.MergeShortScientificParagraphs | extracted/apps/website/scripts/make-gplane-scientific-edition.py:130-156 | the loop terminates, computes the merge pass and counts the paragraphs lost |
| ScientificMerge.Document.MergeTwice | extracted/apps/website/scripts/make-gplane-scientific-edition.py:180-182 | two runs of the pass give the result of one |
| ScientificMerge.PassSettles | extracted/apps/website/scripts/make-gplane-scientific-edition.py:130-156 | after one pass no two neighbours are mergeable |
| ScientificMerge.PairJoinsExactly | extracted/apps/website/scripts/make-gplane-scientific-edition.py:136-152 | two paragraphs are joined exactly when both are body text that is no figure or reference, their lengths are at most 1050 together and one is under 360 |
| ScientificMerge.NeighboursAreLong | extracted/apps/website/scripts/make-gplane-scientific-edition.py:130-156 | after the pass two neighbouring body paragraphs are over 1050 together, or 360 or longer each |
| ScientificMerge.GrowingIsAntitone | extracted/apps/website/scripts/make-gplane-scientific-edition.py:136-152 | growing the right neighbour never makes an unmergeable pair mergeable |
| ScientificMerge.IdleExactlyWhenSettled | extracted/apps/website/scripts/make-gplane-scientific-edition.py:130-156 | the pass changes nothing exactly when no neighbours are mergeable |
| ScientificMerge.SecondPassIdle | extracted/apps/website/scripts/make-gplane-scientific-edition.py:180-182 | the second pass of the driver changes nothing |
| ScientificMerge.PassConservesText | extracted/apps/website/scripts/make-gplane-scientific-edition.py:130-156 | the normalized text of the whole document is conserved |
| ScientificMerge.PassKeepsFixed | extracted/apps/website/scripts/make-gplane-scientific-edition.py:133-143 | headings and other paragraphs outside the body styles stay, in order |
| ProsePolish.Polish | extracted/apps/website/scripts/final-gplane-prose-polish.py:107-156 | the loop terminates and computes the polished document with its counters; no compact paragraph and no bullet is left, only compact paragraphs are removed, the rest keep their order, other nodes are untouched, the working list equals the body |
| ProsePolish.PolishLoop | extracted/apps/website/scripts/final-gplane-prose-polish.py:114-156 | the loop itself, with removed equal to the length lost |
| ProsePolish.PolishedIsDone | extracted/apps/website/scripts/final-gplane-prose-polish.py:114-156 | the polished document holds no compact paragraph style and no bullet in any paragraph |
| ProsePolish.FoldCount | extracted/apps/website/scripts/final-gplane-prose-polish.py:127-156 | each fold leaves strictly fewer compact paragraphs, so stepping the index back is harmless |
| ProsePolish.AppendHolds | extracted/apps/website/scripts/final-gplane-prose-polish.py:78-98 | a folded text is the cleaned text it goes into, less a final colon, and behind it every cleaned item of the run, in order; without an item it is the cleaned text |
| ProsePolish.FoldHoldsItems | extracted/apps/website/scripts/final-gplane-prose-polish.py:127-155 | after one fold every cleaned item of the run occurs, in order, in the paragraph folded into, or in the first one of the run |
| ProsePolish.FoldTexts | extracted/apps/website/scripts/final-gplane-prose-polish.py:133-150 | rewrites exactly the nearest paragraph with text before the run, or else the first of the run |
| ProsePolish.FoldTurn | extracted/apps/website/scripts/final-gplane-prose-polish.py:127-155 | one turn at a run: the run's texts are folded in and its nodes leave the body and the working list |
| ProsePolish.CleanNode | extracted/apps/website/scripts/final-gplane-prose-polish.py:117-125 | cleans one paragraph in place, leaves every other node, and tells whether it changed |
| ProsePolish.CleanTextNoBullet | extracted/apps/website/scripts/final-gplane-prose-polish.py:59-69 | cleaned text holds no bullet |
| PolishText.CleanTextKeepsInk | extracted/apps/website/scripts/final-gplane-prose-polish.py:59-69 | cleaning a text without the six phrases drops its bullets and keeps every other visible character, in order |
| PolishText.PlainTextStays | extracted/apps/website/scripts/final-gplane-prose-polish.py:59-69 | a normalized text without bullets, loose marks and the six phrases stays as it is |
| PolishText.TightenTightens | extracted/apps/website/scripts/final-gplane-prose-polish.py:62 | no white space is left before a mark, and no visible character is lost |
| PolishText.ReplaceFirst | extracted/apps/website/scripts/final-gplane-prose-polish.py:63-68 | the first occurrence of a phrase is replaced, and the text behind it treated alike |
| ProsePolish.ItemKeepsItsStart | extracted/apps/website/scripts/final-gplane-prose-polish.py:72-75 | an item keeps its start exactly when its first character is outside the class of marks; a lower-case ASCII start is always lost |
| PolishText.LeadGoesWithItsSpace | extracted/apps/website/scripts/final-gplane-prose-polish.py:72-75 | a mark at the start of an item goes with all the white space behind it, and then the closing marks go |
| PolishText.LeadsExactly | extracted/apps/website/scripts/final-gplane-prose-polish.py:74 | bullets, both dashes and the backslash are marks; the hyphen, capitals and digits are none |
| ProsePolish.WordLosesItsStart | extracted/apps/website/scripts/final-gplane-prose-polish.py:59-75 | every short lower-case word, as an item, loses its first letter |
| ProsePolish.GateBecomesAte | extracted/apps/website/scripts/final-gplane-prose-polish.py:72-75 | a concrete item that loses its start |
| BodyNodes.Body.RemoveRun | extracted/apps/website/scripts/final-gplane-prose-polish.py:144-154 | removing nodes one by one from body and working list cuts out exactly the run |
| BodyNodes.ScanRun | extracted/apps/website/scripts/final-gplane-prose-polish.py:127-141 | finds the whole run of compact paragraphs and their texts in order |
| BodyNodes.FindPrevious | extracted/apps/website/scripts/final-gplane-prose-polish.py:133-139 | finds the nearest paragraph with text before the run |
| Blocks.PreviousIsNearest | extracted/apps/website/scripts/collapse-gplane-bullets.py:114-120 | between the paragraph found and the run no paragraph shows any text |
| BulletCollapse.Collapse | extracted/apps/website/scripts/collapse-gplane-bullets.py:95-139 | the loop terminates, computes the collapsed document, counts its folds and the nodes removed, and keeps the other nodes in order |
| BulletText.CollapseKeepsText | extracted/apps/website/scripts/collapse-gplane-bullets.py:100-139 | the whole pass loses no text: the blocks of the result hold, in order, the visible characters of every text and of every cleaned item of a folded run, each once, in the order of the input |
| BulletText.KeepsTextFrom | extracted/apps/website/scripts/collapse-gplane-bullets.py:100-139 | the same from any place of the loop |
| ProseText.FoldParts | extracted/apps/website/scripts/collapse-gplane-bullets.py:77-85 | a fold is the text it goes into, less a final colon, then a blank or after a full stop the words that open a list, then the joined items and a full stop |
| ProseText.JoinItemsHolds | extracted/apps/website/scripts/collapse-gplane-bullets.py:66-74 | the joined text holds every item, in order |
| ProseText.JoinItemsLength | extracted/apps/website/scripts/collapse-gplane-bullets.py:66-74 | it holds nothing besides but the commas, the blanks and one "and", so each item once |
| ProseText.DropMarksExactly | extracted/apps/website/scripts/collapse-gplane-bullets.py:60-63 | of an item exactly the closing row of full stops, semicolons and colons goes |
| BulletRuns.NoLongRunLeft | extracted/apps/website/scripts/collapse-gplane-bullets.py:100-139 | without the three fragile texts, no run of three or more compact paragraphs is left |
| BulletRuns.NoLongRunExactly | extracted/apps/website/scripts/collapse-gplane-bullets.py:100-139 | for every document: no run of three or more is left if and only if no three neighbours among the blocks that stay are compact or turned by a fold, all read off the input |
| BulletRuns.CollapsedFlags | extracted/apps/website/scripts/collapse-gplane-bullets.py:100-139 | that scan of the input gives the compact flag of every block of the result |
| BulletRuns.FlagsForetold | extracted/apps/website/scripts/collapse-gplane-bullets.py:100-139 | from any place of the loop: one scan of the list, without rewriting, tells which blocks of the result are compact |
| BulletCollapse.ItemKeepsItsMark | extracted/apps/website/scripts/collapse-gplane-bullets.py:60-63 | an item that starts with a mark keeps its start exactly when no backslash follows the mark |
| BulletCollapse.BulletItemStays | extracted/apps/website/scripts/collapse-gplane-bullets.py:60-63 | an ordinary bullet item keeps its bullet |
| BulletCollapse.FoldStartsBullet | extracted/apps/website/scripts/collapse-gplane-bullets.py:55-85 | exactly which texts a fold turns into a bullet paragraph |
| BulletRuns.SampleSettlesExactly | extracted/apps/website/scripts/collapse-gplane-bullets.py:100-139 | around any text, a run of three is left exactly when the text is one of the three fragile ones |
| BulletRuns.FragileTextsFail | extracted/apps/website/scripts/collapse-gplane-bullets.py:100-139 | a document on which a run of three is left, for each fragile text |
| BulletCollapse.FoldIsNotFragile | extracted/apps/website/scripts/collapse-gplane-bullets.py:77-85 | a folded text is never fragile again |
| ChapterRewrite.ChapterBounds | extracted/apps/website/scripts/final-book-structural-pass.py:106-118 | finds the wanted occurrence of a chapter title and the next chapter heading, exactly when there are that many |
| ChapterRewrite.Document.ReplaceChapter | extracted/apps/website/scripts/final-book-structural-pass.py:121-151 | the section becomes heading, first two new paragraphs, old figures and captions in order, the other new paragraphs, then the untouched rest; nothing outside changes; for every section and every list of new paragraphs |
| ChapterRewrite.FirstTwoLead | extracted/apps/website/scripts/final-book-structural-pass.py:135-146 | for two or more new paragraphs the section starts with the heading, the first, the second and then the figures; for one, with the heading, it and the figures |
| ChapterRewrite.RewriteConserves | extracted/apps/website/scripts/final-book-structural-pass.py:121-151 | apart from the replaced prose every old node is still there, once |
| ChapterRewrite.Document.InsertTexts | extracted/apps/website/scripts/final-book-structural-pass.py:135-139 | the new paragraphs stand behind the heading in their order and are fresh nodes |
| ChapterRewrite.Document.MoveFigures | extracted/apps/website/scripts/final-book-structural-pass.py:141-146 | moving the figures one by one puts them behind their anchor in their old order |
| ChapterRewrite.Document.DeleteProse | extracted/apps/website/scripts/final-book-structural-pass.py:148-150 | deleting the prose leaves every other node of the section in place |
| Lists.InsertAfterAt | extracted/apps/website/scripts/final-book-structural-pass.py:81-89 | the inserted node lands right behind its anchor |
| ChapterRewrite.ReaderMap.Insert | extracted/apps/website/scripts/final-book-structural-pass.py:154-170 | inserts exactly when no paragraph shows the title and the anchor heading is there; the entries then stand right before the first anchor, in reverse order, and nothing else changes |
| ChapterRewrite.ReaderMap.InsertEntries | extracted/apps/website/scripts/final-book-structural-pass.py:164-169 | walking the entries backwards and putting each before the anchor leaves them in reverse order |
| ChapterRewrite.HasTitle | extracted/apps/website/scripts/final-book-structural-pass.py:155-156 | tells whether some paragraph shows the title |
| ChapterRewrite.FindTitle | extracted/apps/website/scripts/final-book-structural-pass.py:157-163 | finds the first heading of the anchor title |
| Lists.InsertBeforeAt | extracted/apps/website/scripts/final-book-structural-pass.py:166 | the inserted node lands right before its anchor |
| ChapterRewrite.ReaderMapKeepsOrder | extracted/apps/website/scripts/final-book-structural-pass.py:164-169 | the reader map keeps its order exactly when it reads the same backwards |
| ChapterRewrite.DistinctMapKeepsOrder | extracted/apps/website/scripts/final-book-structural-pass.py:164-169 | a map of different entries keeps its order exactly when it has at most one |
| ChapterRewrite.ReaderMapStrandsItsHeading | extracted/apps/website/scripts/final-book-structural-pass.py:53-170 | the map of five entries leaves its four paragraphs reversed and its heading last before the anchor, so the chapter it was to open is empty |
| Similarity.CauchySchwarz | extracted/apps/website/scripts/detect-book-repetition.py:33-37 | the square of the dot product is at most the product of the square sums |
| Similarity.CosineInUnitRange | extracted/apps/website/scripts/detect-book-repetition.py:32-38 | the score lies between 0 and 1 |
| Similarity.CosineExactly | extracted/apps/website/scripts/detect-book-repetition.py:32-38 | the score times the product of the norms is the dot product, for all counters |
| Similarity.RepeatsExactly | extracted/apps/website/scripts/detect-book-repetition.py:89-93 | the score reaches 0.47 exactly when the dot product is not zero and reaches 0.47 times the product of the norms |
| Similarity.DotSymmetric | extracted/apps/website/scripts/detect-book-repetition.py:33 | the sum over one counter's words does not depend on which counter that is |
| Similarity.CosineSymmetric | extracted/apps/website/scripts/detect-book-repetition.py:32-38 | the score is symmetric |
| Similarity.NormsArePositive | extracted/apps/website/scripts/detect-book-repetition.py:34-38 | behind the guard neither norm is zero |
| Similarity.CosineZero | extracted/apps/website/scripts/detect-book-repetition.py:32-38 | the score is zero exactly when the counters share no word |
| Similarity.CosineOfEqual | extracted/apps/website/scripts/detect-book-repetition.py:32-38 | equal counters score 1, in any insertion order, unless they count nothing |
| Similarity.RepeatedPairs | extracted/apps/website/scripts/detect-book-repetition.py:89-94 | exactly the pairs whose dot product is not zero and reaches 0.47 times the product of the norms are reported, each once |
| Assurance.MoreArtifactsNeverLower | extracted/adapters/http-gateway/src/index.ts:309-419 | adding artifacts never lowers a mission's posture |
| Assurance.MoreControlNeverRaises | extracted/adapters/http-gateway/src/index.ts:309-419 | adding kill scopes, tasks or workspaces never raises it |
| Assurance.PostureExactly | extracted/adapters/http-gateway/src/index.ts:309-329 | each of the four postures of a mission in terms of the tasks, artifacts and kill scopes of the report |
| Assurance.ScopeHaltsExactly | extracted/adapters/http-gateway/src/index.ts:394-407 | whom a kill scope halts, for each of the five kinds and for an unknown one |
| Assurance.SystemIsMonotone | extracted/adapters/http-gateway/src/index.ts:389-460 | both together, for the system posture of the whole report |
| Assurance.InsurableExactlyWithoutProblems | extracted/adapters/http-gateway/src/index.ts:309-376 | a mission is insurable exactly when its reasons are the single fallback |
| Assurance.DeriveReasons | extracted/adapters/http-gateway/src/index.ts:331-376 | the reasons are the problems in report order, or else the fallback, which stands alone exactly for an insurable mission |
| Assurance.ProblemsExactly | extracted/adapters/http-gateway/src/index.ts:340-372 | each problem is reported exactly when it is there |
| Assurance.SystemIsMeet | extracted/adapters/http-gateway/src/index.ts:456-460 | the system posture is the meet of the mission postures, a blocked one read as conditional |
| Assurance.SystemIgnoresOrder | extracted/adapters/http-gateway/src/index.ts:456-460 | the system posture does not depend on the order of the missions |
| Assurance.ReasonsExactlyForMissions | extracted/adapters/http-gateway/src/index.ts:461-472 | the system reasons are empty exactly when there are no missions |
| Assurance.SystemReasonsExactly | extracted/adapters/http-gateway/src/index.ts:461-472 | each system reason is given exactly when the postures of the missions call for it |
| Latency.NearestRank | extracted/scripts/benchmark-runtime.ts:126-143 | a percentile is the true nearest-rank sample: at least ⌈np⌉ samples are at or below it and fewer are below it |
| Latency.StatsPercentiles | extracted/scripts/benchmark-runtime.ts:124-147 | the three percentiles of the summary lie within half a thousandth of the samples at the ranks of 0.5, 0.95 and 0.99 |
| Latency.RoundIsNear | extracted/scripts/benchmark-runtime.ts:145-147 | rounding moves a value by at most half a thousandth, onto a whole number of thousandths |
| Latency.IndexInRange | extracted/scripts/benchmark-runtime.ts:140-143 | the index is in range exactly for a positive fraction |
| Latency.PercentilesOrdered | extracted/scripts/benchmark-runtime.ts:140-147 | percentiles grow with the fraction and lie between the rounded ends |
| Latency.StatsOrdered | extracted/scripts/benchmark-runtime.ts:124-147 | after rounding min ≤ p50 ≤ p95 ≤ p99 ≤ max and min ≤ mean ≤ max; an empty sample set is an error |
| Latency.StatsOfSamples | extracted/scripts/benchmark-runtime.ts:124-138 | count, least, greatest and mean are those of the unsorted samples |
| Latency.RoundMonotone | extracted/scripts/benchmark-runtime.ts:145-147 | rounding keeps order |

## Left out

- The Commit Gate, warrants of the runtime, the evidence ledger and mesh nodes.
- EvaluateTrial: parsing a policy text, adding seconds to a date and the hashes are given functions.  Known of them is
  only that a text that parses names its five blocks and that the word "soon" is no date.  Amounts are finite, a time
  is a string, and the explanations and pipeline steps of an evaluation are not modelled.
- Execute: an error that reaches Express is answered with its default status 500; the body is not modelled.
- Express routing, `fetch`, telemetry, health probes and the reading of the environment: requests arrive as the
  headers, path and body fields that the code reads; a configuration is what the loader returns.
- The digest itself: it has 32 bytes and belongs to an ideal signer; the report digest is collision-free on bytes.
- Dates: times are whole milliseconds, `toISOString` and `Date.parse` are exact inverses; the range limit of `Date`
  and a time-to-live that is not a number are not modelled.
- ParseToken: a correctly signed payload without the five string fields counts as no session here, where the source
  casts without looking; the ideal signer never signs such a payload.
- ValidateClaims: a refusal carries its error code and not its message.
- StableStringify: functions, symbols, big integers, sparse arrays and `toJSON` methods are not modelled, and a
  finite number stands for the decimal text JavaScript prints.
- DeriveReasons: a reason is a value that names its scopes or its count; the sentence built from it is not modelled.
- CutStreamSize: requires a budget that is not negative, because a negative one counts back from the end of the
  stream; `CutStreamExact` covers every budget.
- CutStream: a budget is a whole number of bytes; `subarray` would truncate a fractional one.
- Approvals are a map: the order in which the approvals list shows them is not modelled.
- Paragraphs have a style, a text and flags; runs, fonts, element tails and other markup are not modelled.
- MergeShortScientificParagraphs: the document is a list of paragraph values; node identity plays no part in that
  script.  The figure pattern uses Python's tables for letters and digits as parameters.
- The other passes of the book scripts (sentence pruning, low-value filters, repeated phrases, micro-chapters, text
  artifacts) would add only easy members.
- Cosine and Stats: over exact reals with an exact square root, so floating-point rounding and `throughputPerSecond`,
  which divides by a total that may be zero, are not modelled.
- RepeatedPairs: the final sort of the pairs by score only orders what is printed.
- NoLongRunLeft: a condition on the texts alone, so one direction; `NoLongRunExactly` gives both for every document.
