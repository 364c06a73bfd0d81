# A verified model of cloudflare-smtp-relay

The relay accepts mail over SMTP submission and hands it to Cloudflare over HTTP, either through the REST
API or through a small Worker that owns the `send_email` binding. This project models the logic between
the two network ends and proves what a client may conclude from the replies it gets.

| file | models |
|---|---|
| `text.dfy`, `firstwins.dfy`, `options.dfy` | trimming, lower case, split and join; order-preserving de-duplication |
| `backoff.dfy` | backoff ceiling, jitter and Retry-After on 64-bit integers |
| `delivery.dfy` | classification of upstream answers, REST and Worker response parsing |
| `sendloop.dfy` | the retry loop against an arbitrary environment |
| `message.dfy`, `recipients.dfy` | addresses, the To/Cc/Bcc split, the resolved sender |
| `domains.dfy` | the allowlist: configuration string, policy, trimming |
| `payload.dfy`, `worker.dfy` | the JSON body, its translation in the Worker, the Worker's handler and token check |
| `session.dfy`, `login.dfy` | the SMTP session as an object with a call history; the LOGIN exchange |
| `relay.dfy` | the pipeline end to end |
| `changelog.dfy`, `changelogfile.dfy`, `releasechains.dfy` | the release script: rewriting a changelog, running it on a file, and doing so repeatedly |

`dafny verify dfyconfig.toml` checks everything.

## How it is modelled

* Durations are integers counting nanoseconds; where the source computes in `int64`, the wrap-around is
  written out (`Backoff.Wrap64`).
* A run of the retry loop gets a `Config`: an adapter, a retry limit, and an environment that says for every
  round what the context reports at each check, what the exchange comes to, which random number is drawn
  and what interrupts the sleep. Nothing restricts the environment. A `Run` is the outcome together with the
  number of requests issued and the list of sleeps asked for. `RunOf` is the closed form: the run stops at
  the least round that is not followed by another one.
* A session object carries the source's three fields, what it handed to the Sender, what it logged, and a
  ghost history of the calls. Its invariant says that all of them are a function of that history; the lemmas
  below are about every history, in any order of calls.
* Lists are specified without accumulators: an item is kept if it is the first with its key and the key is
  allowed. The loops with their `assigned` and `seen` maps are proved to compute that.
* The binding message is read back by its own field names (`ReadBinding`), independently of how it was built.
* JSON objects the Worker receives or builds are records of JSON values in which an absent property is
  `Undefined`, with JavaScript's notion of truth.

## Where code and documentation differ

The model follows the code.

* The release script says it refuses to run twice for the same version. That holds if and only if the
  version has neither a newline nor a carriage return, which reading the file back turns into a newline
  (`ChangelogFile.SecondScriptRun`, `Changelog.SecondRun`); with one, every run succeeds
  (`ChangelogFile.BrokenVersionRunsAgain`, and `ChangelogFile.RunsTwice` for two concrete ones).
* The retry loop says a Retry-After over the cap is terminal. The number of seconds is converted without an
  overflow check, so a value above 9223372036 can wrap to a short delay and be retried
  (`Backoff.RetryAfterExact`, `SendLoop.RetryAfterEndsIff`, and `Backoff.RetryAfterWraps` and
  `SendLoop.WrappedHintIsSlept` for a concrete one).
* Recipient matching is described as case-insensitive on the whole address, and Bcc as the recipients no
  header names. Envelope recipients are also trimmed before matching, header addresses are not, so the
  description holds for all headers if and only if no recipient but a blank one is padded
  (`Recipients.BlindAsDocumented`, `Recipients.MatchingAsDocumented`; `Recipients.PaddedNameIsBlind` is a
  recipient it fails for).
* All recipients are said to go to To when the message has no To and no Cc header at all. The code does so
  when neither header yields an address, a header that is an empty list or unreadable included
  (`Recipients.FallbackAsDocumented`; `Recipients.UndisclosedIsDisclosed` is a recipient shown by it).
* The allowlist is checked on the untrimmed sender and the trimmed sender is sent. For an arbitrary
  allowlist this protects the sent address if and only if entries stay listed without their trailing white
  space (`Domains.TrimSafe`, `Domains.PaddedEntryIsUnsafe`); lists that went through `normalizeDomains`
  always qualify.

Two limits that no documentation mentions: splitting recipients again gives the same lists unless all of
them are blind (`Recipients.ResplitStable`), and a message may be delivered twice when an answer is lost
(`Relay.AtMostOnceIff`).

## Model

| member | source | states |
|---|---|---|
| Relay.PositiveReplyIsDelivery | internal/smtpserver/session.go:148-253 | over any call history and configuration: a positive reply to DATA through the Worker means the client had authenticated, the binding accepted a message whose sender is the trimmed argument of the last accepted MAIL, with a domain on the allowlist if one is configured and the header's name if it names that sender, whose recipients are exactly, once each, the non-blank RCPTs since that MAIL, in To and Cc those the headers name, as the headers write them, and in Bcc the others, and whose subject, bodies and headers are those submitted |
| Relay.SuccessMeansAccepted | internal/cloudflare/worker.go:80-97 | a run against the Worker succeeds if and only if the secrets agree, the body is not too big, the translation succeeds and the binding accepted in the last round; what it accepted reads as the message submitted |
| Relay.AcceptancesCounted | internal/cloudflare/send.go:53-81 | over a run, lost answers included, the binding accepts the message once for every acceptance the relay does not get to read, and once more if the run succeeds; so a successful run delivered exactly once if and only if no acceptance went unheard |
| Relay.AtMostOnceIff | internal/cloudflare/send.go:62-79 | no environment, declared body length included, makes one run deliver twice, if and only if retries are off, the secret is unset or differs, or the message does not translate: requests carry nothing by which a repetition is recognised |
| Relay.DeliveredTwice | worker/src/index.js:49-50 | the other case happens: the first answer is lost after the binding accepted, the retry is accepted again, and the run reports success |
| Relay.DroppedOnlyIfRefused | worker/src/index.js:16-65 | the client is told to drop a message if and only if the last request reached the Worker with the right secret and was too big, not translatable, or refused with one of the three sender/recipient codes, or another server answered it with JSON that reads as a permanent rejection, by one of those codes or by its status |
| Relay.WrongAddressDrops | internal/cloudflare/worker.go:130-144 | the last case needs no more than a wrong address: a 404 with any JSON object drops the message at the first request, whatever the Worker would have done |
| Relay.RoundDelivers | worker/src/index.js:30-55 | per request: when the relay takes the Worker's answer as an acceptance, both directions |
| Relay.RoundRejects | worker/src/index.js:34-63 | per request: when the relay takes an answer, the Worker's or another server's, as a permanent rejection, both directions |
| Relay.RepliesAgreeWithRuns | internal/smtpserver/session.go:220-252 | with either adapter and any environment: reply, log record and classification agree, the logged attempts are the requests made, success and permanent rejection are reported if and only if the last request ended that way |
| Relay.RecipientsConserved | internal/smtpserver/session.go:199-214 | the keys of the three delivery lists are, each once, those of the RCPTs since the last accepted MAIL, RSET or logout; nothing leaks from an earlier transaction |
| Relay.SubmittedSurvives | internal/cloudflare/payload.go:39-70 | for messages built by the session, payload and Worker translation compose to the identity; they fail if and only if sender, recipients, subject or both bodies are missing |
| SendLoop.Send | internal/cloudflare/send.go:40-81 | the loop, from any environment, returns the closed-form run: outcome, number of requests and exact list of sleeps |
| SendLoop.StopFrom | internal/cloudflare/send.go:53-81 | there is a least round at which the run stops, at most one more than the retries |
| SendLoop.StopIsUnique | internal/cloudflare/send.go:53-81 | that round is unique, so it determines the run |
| SendLoop.DoAttempt | internal/cloudflare/send.go:86-125 | every attempt is soundly classified with its own number; a lost request is retried; the hint is the Retry-After value read from a failed 429, and 0 in every other case |
| SendLoop.AttemptAccounting | internal/cloudflare/send.go:53-81 | on every exit the reported attempts are the requests issued, at most retries + 1, all but the last refused as retryable; the run succeeds if and only if the last one was read as accepted |
| SendLoop.LastWord | internal/cloudflare/send.go:54-80 | the outcome is what the last request came to, also when the context is found cancelled later; a sleep cut short is a transport failure of its own; with no request at all, a cancelled start |
| SendLoop.PermanentOnlyIfRejected | internal/cloudflare/send.go:54-80 | the outcome is permanent if and only if the last request was permanently rejected; any cancellation, wherever it is noticed, ends in a temporary error |
| SendLoop.NoRequestAfterCancel | internal/cloudflare/send.go:54-59 | no request is issued after a round in which the context was seen cancelled |
| SendLoop.BudgetIsUsed | internal/cloudflare/send.go:67-69 | a run that ends on something that may be repeated has used its retries, was cancelled, or was asked to wait longer than the cap |
| SendLoop.SleepBudget | internal/cloudflare/send.go:71-79 | at most one sleep per retry, each in [0, 5s], total at most retries times 5s; if no request of the run got a positive hint, at most the closed-form jitter budget |
| SendLoop.SleepFitsTimeout | internal/config/config.go:116-118 | with at most five retries all sleeps together stay within 25s (12.5s without hints), below the 30s send timeout |
| SendLoop.HintObeyed | internal/cloudflare/send.go:71-79 | a positive hint up to 5s is slept exactly, a longer one ends the run with the error it came with, none means jitter |
| SendLoop.RetryAfterHonoured | internal/cloudflare/send.go:118-123 | Retry-After in seconds: 1 to 5 slept exactly, 6 to 9223372036 ends the run, 0 or beyond int64 falls back to jitter |
| SendLoop.RetryAfterEndsIff | internal/cloudflare/send.go:165-169 | for every number of seconds, the run ends on the hint if and only if the wrapped nanosecond count exceeds the cap |
| SendLoop.WrappedHintIsSlept | internal/cloudflare/send.go:71-79 | with a Retry-After of 18446744074 seconds a run with retries left sleeps 0.29 seconds instead of ending |
| SendLoop.RetryDateHonoured | internal/cloudflare/send.go:171-177 | Retry-After as a date, that is any value that is no number: waited for if within 5s, ends the run if later, ignored if past |
| SendLoop.UnusableHintMeansJitter | internal/cloudflare/send.go:118-123 | a lost request, another status, or an empty, negative or unreadable Retry-After leaves the jittered delay |
| SendLoop.MoreRetriesSameRun | internal/cloudflare/send.go:137-140 | a run that did not exhaust its retries is the same run under any larger limit |
| Backoff.CeilingIsCappedDoubling | internal/cloudflare/send.go:149-152 | for every attempt, the ceiling computed with 64-bit shifts and wrap-around is min(500ms * 2^(attempt-1), 5s), so the random range is never empty |
| Backoff.BackoffDelay | internal/cloudflare/send.go:145-156 | a positive hint is returned as is; otherwise the delay lies between 0 and the documented ceiling |
| Backoff.JitterIsFull | internal/cloudflare/send.go:141-155 | without a hint the possible delays are all those from 0 to the ceiling, and no others |
| Backoff.AtoiDecimal | internal/cloudflare/send.go:165-165 | reading back the decimal rendering of a number gives the number, if and only if it fits an int64 |
| Backoff.AtoiSigned | internal/cloudflare/send.go:165-165 | the same with a sign, down to -2^63 |
| Backoff.RetryAfterDate | internal/cloudflare/send.go:171-178 | any value with a character that is neither a digit nor a leading sign, as every HTTP date, is read as the time left until its date, 0 if that is past, and as nothing if it has none |
| Backoff.RetryAfterNegative | internal/cloudflare/send.go:166-168 | a negative number of seconds is no hint |
| Backoff.RetryAfterExact | internal/cloudflare/send.go:161-179 | a number of seconds is read as exactly that delay if and only if it is at most 9223372036 |
| Backoff.RetryAfterWraps | internal/cloudflare/send.go:165-169 | 18446744074 seconds is read as 0.29 seconds |
| Delivery.ClassifyHTTP | internal/cloudflare/classify.go:72-99 | for every status and code: reply digit, enhanced class and temporary flag agree, and enhanced status and reason are those documented for the status, or for the status a listed code is like |
| Delivery.ClassifyTransport | internal/cloudflare/classify.go:106-121 | a failure without a usable response is a temporary 4.4.1, timed out if and only if a deadline passed |
| Delivery.TablesAgree | internal/cloudflare/classify.go:27-99 | unlisted codes get the documented reply and reason of their status; listed codes behave exactly like the documented status of the same meaning |
| Delivery.RestVerdictIsImplemented | internal/cloudflare/classify.go:132-144 | classification and retry decision, computed separately, implement one verdict: retry, hold or reject; the error carries the documented reply and reason, the status and the first code |
| Delivery.ParseRESTResponse | internal/cloudflare/rest.go:131-154 | accepted if and only if the body decodes and says so; retryable implies temporary; temporary without retry if and only if 4.7.0; the provider id is the first of the delivered ids, or blank without any |
| Delivery.UndecodableIsRetried | internal/cloudflare/rest.go:132-136 | with either adapter, an answer that cannot be decoded is a retried 4.4.1, whatever its status |
| SendLoop.UndecodableIsLost | internal/cloudflare/rest.go:132-136 | for the retry loop it is the same as a request that was lost |
| SendLoop.RestOutcome | internal/cloudflare/rest.go:131-154 | against the REST API a run ends permanently if and only if the last answer decoded, reported failure, and its first code, or else its status, is documented as a rejection; it succeeds if and only if the last answer decoded and reported success |
| Delivery.ParseWorkerResponse | internal/cloudflare/worker.go:130-161 | the same for the Worker's answers |
| WorkerScript.Authorized | worker/src/index.js:71-82 | the XOR/OR loop accepts, for a non-empty secret, if and only if the header is "Bearer " followed by the secret; the unset secret is characterised too |
| WorkerScript.SameUnits | worker/src/index.js:77-81 | the accumulated difference is zero if and only if the strings are equal |
| WorkerScript.CodesAgree | worker/src/index.js:141-153 | for every error code the binding throws, the Worker's status and the relay's tables give a permanent reply if and only if it is one of the three rejections, a retried one otherwise, with the stated reply and reason |
| WorkerScript.RefusalVerdict | internal/cloudflare/worker.go:120-161 | for every status and code, whoever sent them: a documented code decides verdict, reply and reason, otherwise the status does |
| WorkerScript.VerdictAcrossLanguages | worker/src/index.js:16-65 | for every POST: accepted iff the binding accepted, held iff the secrets differ, retried iff the Worker is not configured or the binding failed otherwise |
| WorkerScript.ExitStatus | worker/src/index.js:18-63 | the status of an answer tells exactly at which check the handler stopped, or that the binding was called and what it did |
| Payload.ToAddressPayloads | internal/cloudflare/payload.go:64-70 | the filled slice holds the addresses in order |
| Payload.BuildPayload | internal/cloudflare/payload.go:39-58 | the payload carries every field, whether or not its optional parts are set |
| Payload.ToBindingMessage | worker/src/index.js:88-121 | the field-by-field translation computes the specified one, checks in the same order |
| Payload.TranslationIsComplete | worker/src/index.js:88-121 | for any JSON object, a translated message has a sender, a subject, a body and at least one non-empty list of usable addresses |
| Payload.MessageSurvives | worker/src/index.js:123-135 | any message read back from the binding is the original, lists, order and names included, minus blank addresses; the translation throws if and only if a required part is missing, and names the first one missing |
| Payload.BindingAddressMeans | worker/src/index.js:123-128 | for any JSON value: an address is a non-blank string, taken over as it is, or an object with an address, whose address and name are carried over |
| Payload.MapFilterConcat | worker/src/index.js:130-134 | the address list is built item by item, in order |
| Payload.SingleAddress | worker/src/index.js:130-134 | a single value counts as a list of one |
| Payload.HeadersMean | worker/src/index.js:116-118 | headers are handed on as they came unless they have no keys |
| Payload.FalsyListed | worker/src/index.js:104-115 | the JSON values that count as missing |
| Recipients.SplitRecipients | internal/email/parse.go:136-207 | the loops with their maps compute the accumulator-free split |
| Recipients.TakeFromHeader | internal/email/parse.go:163-191 | a header loop keeps the first header entry of every envelope key nobody took, and marks them |
| Recipients.TakeFromEnvelope | internal/email/parse.go:193-204 | an envelope loop keeps the first trimmed recipient of every key nobody took |
| Recipients.Partition | internal/email/parse.go:127-207 | To = E ∩ T, Cc = (E ∩ C) \ T, Bcc = E \ (T ∪ C), or To = E without any header address; keys are distinct across the lists, none is lost or added, and the count is the number of distinct non-blank RCPTs |
| Recipients.FallbackAsDocumented | internal/email/parse.go:114-161 | the split is the documented one, with the fallback for messages that have neither header, if and only if both headers are missing, or some header yields an address, or there is nobody to deliver to |
| Recipients.UndisclosedIsDisclosed | internal/email/parse.go:145-161 | with a To header that is an empty list, a recipient documented to go to Bcc goes to To |
| Recipients.EntriesAreOriginal | internal/email/parse.go:163-204 | with some To or Cc header address, To and Cc entries are header entries with their names; without, the To entries are trimmed RCPTs without a name; Bcc entries always are |
| Recipients.DivideSplits | internal/email/parse.go:148-207 | keys and entries together: each list has its part of the envelope, and each visible entry is the first of its address in its header |
| Recipients.BlindAsDocumented | internal/email/parse.go:130-131 | for every list of RCPTs: no header makes a recipient it names, case aside, go out as Bcc, if and only if no non-blank RCPT has white space around it |
| Recipients.MatchingAsDocumented | internal/email/parse.go:127-135 | the documented matching on the whole address is what the code does, for all headers, under the same condition and no other: To and Cc then have exactly the recipients a header names and Bcc the others |
| Recipients.PaddedNameIsBlind | internal/email/parse.go:163-204 | a padded recipient standing verbatim in To is sent a blind copy |
| Recipients.EnvelopeFormatIrrelevant | internal/email/parse.go:137-143 | reordering, repeating, re-casing or padding RCPTs changes neither the keys of any list nor their number; with some To or Cc header address the To and Cc lists are the same entry for entry |
| Recipients.SplitIsCanonical | internal/email/parse.go:136-207 | the lists hold distinct, non-blank, trimmed addresses |
| Recipients.ResplitStable | internal/email/message.go:73-82 | feeding the lists and all their recipients back gives the same lists if and only if To or Cc is non-empty or Bcc is empty |
| Recipients.SenderResolved | internal/email/parse.go:96-109 | the address is always the trimmed envelope sender; the name is the header's exactly if the header's first address is unpadded and the same up to case, and blank otherwise |
| FirstWins.FirstsExact | internal/email/parse.go:168-175 | the positions kept are exactly the first occurrences of allowed keys, in order |
| FirstWins.PickAtFirsts | internal/email/parse.go:168-175 | the result is the subsequence at those positions |
| FirstWins.PickKeys | internal/email/parse.go:133-134 | the keys of the result are distinct and are exactly the allowed keys that occur |
| Text.KeyFacts | internal/email/parse.go:139-140 | the matching key is trimmed, lower case, a fixed point, the same for any casing, and blank exactly for blank entries |
| Text.KeyPadding | internal/email/parse.go:139-139 | the key does not depend on surrounding white space |
| Text.TrimUnique | internal/email/parse.go:97-97 | trimming leaves the one core without white space at its ends |
| Message.Domain | internal/email/message.go:19-26 | the backward scan finds what follows the last `@`, lower case |
| Message.LastAt | internal/email/message.go:19-26 | what follows the last `@` is the domain, whatever precedes it |
| Message.LowerASCII | internal/email/message.go:103-111 | the in-place edit lowers exactly the ASCII capitals |
| Text.LowerMeans | internal/email/message.go:100-111 | two strings have the same lower-case form exactly if they differ in the case of letters only |
| Text.SpacesListed | internal/email/parse.go:97-97 | the white space that is trimmed, character by character |
| Message.CollectRecipients | internal/email/message.go:74-82 | the nested loops list To, Cc and Bcc in order, as many as are counted |
| Message.RecipientOrder | internal/email/message.go:73-82 | the position of every recipient: To first, then Cc, then Bcc |
| Domains.NormalizeDomains | internal/config/validate.go:84-100 | the loop keeps the first occurrence of every non-blank normalised entry |
| Domains.NormalizeIsNormal | internal/config/validate.go:82-100 | entries are trimmed, lower case, comma-free, non-empty, distinct, and exactly those of the input |
| Domains.NormalizeTwice | internal/config/validate.go:82-100 | joining the result and normalising again gives the same list |
| Domains.NewSenderPolicy | internal/email/policy.go:19-29 | the allowed set is that of the lower-case domains |
| Domains.AllowsSender | internal/email/policy.go:32-44 | the lookup decides the policy predicate |
| Domains.AllowsEverybody | internal/email/policy.go:7-8 | every sender is admitted if and only if there is no allowlist |
| Domains.NoListIff | internal/config/validate.go:84-100 | a configured value means no allowlist if and only if all its entries are blank |
| Domains.AllowsListed | internal/email/policy.go:16-44 | a policy built from any non-empty list admits exactly the senders whose domain is in it, case aside |
| Domains.AllowsExactly | internal/email/policy.go:5-12 | a configured non-empty allowlist admits exactly the senders whose domain is listed, no subdomains or parents |
| Domains.DomainOfTrimmed | internal/email/parse.go:97-97 | trimming an address trims its domain on the right and never moves its last `@` |
| Domains.TrimSafe | internal/smtpserver/session.go:116-132 | for any allowlist: checking the untrimmed sender protects the trimmed one if and only if matchable entries stay listed without trailing white space |
| Domains.PaddedEntryIsUnsafe | internal/email/policy.go:32-44 | an allowlist with a padded entry admits a padded sender whose sent address it does not admit |
| Domains.ConfiguredListIsTrimSafe | internal/config/config.go:102-102 | allowlists from the configuration always qualify |
| Session.Session.constructor | internal/smtpserver/session.go:39-41 | a new session has an empty history |
| Session.Session.Authenticate | internal/smtpserver/session.go:84-92 | 535 unless both parts match; the new state is that of the extended history |
| Session.Session.Mail | internal/smtpserver/session.go:111-135 | 530 or 550 exactly when unauthenticated or not allowed, and then nothing changes; otherwise the envelope starts afresh with this sender; without an allowlist an authenticated client is never refused |
| Session.Session.Rcpt | internal/smtpserver/session.go:140-143 | the recipient is appended |
| Session.Session.Reset | internal/smtpserver/session.go:98-101 | the envelope is cleared, authentication is kept |
| Session.Session.Logout | internal/smtpserver/session.go:104-107 | the envelope is cleared |
| Session.Session.Data | internal/smtpserver/session.go:148-253 | the reply, literally for every exit before the Sender's answer; exactly one new record; at most one message handed over; no field changed |
| Session.HandedFollows | internal/smtpserver/session.go:180-199 | the message handed over follows the submission: To and Cc are split by its headers, visible entries are the header's, the first of each address, Bcc has the others, the sender follows the envelope and the From header, every other field is the submission's |
| Session.FieldsRefineHistory | internal/smtpserver/session.go:47-53 | after any history: authenticated iff the configured pair was presented, the sender is that of the last accepted MAIL unless cleared since, the recipients are the RCPTs after that point |
| Session.SenderIsAuthorised | internal/smtpserver/session.go:111-135 | a session with a sender is authenticated and the sender passed the allowlist |
| Session.SentIsAuthorised | internal/smtpserver/session.go:199-220 | every message handed to the Sender with a non-blank sender came from an authenticated client; under a configured allowlist the domain of that sender, which was trimmed after the check, is on the list |
| Session.UnsignedHandover | internal/smtpserver/session.go:148-220 | the condition is needed: DATA on a new session, which the SMTP library refuses, would hand over a message without a sender and without authentication |
| Session.NoBlankSender | internal/smtpserver/session.go:199-220 | under a configured allowlist the handed message lacks a sender only if no MAIL was in force |
| Session.OutboxOrigin | internal/smtpserver/session.go:220-220 | everything handed to the Sender stems from a DATA command of the history |
| Session.RecordNamesMessage | internal/smtpserver/session.go:164-215 | the record names the message handed over, with the status, provider code and attempts reported for it, or nothing; it says sent exactly for an accepted one |
| Session.OneRecordPerData | internal/smtpserver/session.go:145-178 | one record per DATA command, over any history |
| Login.LoginServer.constructor | internal/smtpserver/login.go:27-29 | a new exchange has seen no response |
| Login.LoginServer.Next | internal/smtpserver/login.go:32-51 | challenges in order; the session is asked once, with the collected pair; later responses change nothing |
| Login.ChecksOnce | internal/smtpserver/login.go:7-23 | whatever is sent, the user name is the first response present, the password the next one, checked once |
| Text.JoinSplit | scripts/release_changelog.py:17-17 | joining the lines of a text gives back the text |
| Text.SplitJoin | scripts/release_changelog.py:80-80 | the lines of joined lines are the lines of each, so line breaks inside an argument become lines of the file |
| Changelog.RewriteText | scripts/release_changelog.py:16-80 | the script computes the specified rewriting, with the same refusals in the same order, and a reader of the result finds the version and date of the release in the new section's heading |
| Changelog.RefusalOrder | scripts/release_changelog.py:19-46 | which refusal it is, from four plain facts about the lines, in this order: no Unreleased heading, the version already there, no heading below, no link line |
| Changelog.NewSectionReads | scripts/release_changelog.py:57-63 | the first Unreleased heading of the result is followed by a blank line and a heading that reads back as version and date |
| Changelog.HeadingReads | scripts/release_changelog.py:60-60 | a reader of the new heading gets the version and the date |
| Changelog.LinkLinesRead | scripts/release_changelog.py:70-71 | a reader of the two new links gets the tags compared: the new version to HEAD, the previous to the new version |
| Changelog.LinkMeans | scripts/release_changelog.py:66-69 | a link line is the label followed by a white-space character |
| Changelog.UpdateLinks | scripts/release_changelog.py:65-78 | the loop expands every link line and its flag tells whether there was one |
| Changelog.FindPrefix | scripts/release_changelog.py:19-46 | the first line from a position on with a prefix, if any |
| Changelog.InsertedForm | scripts/release_changelog.py:52-75 | conservation: the original lines in order, a blank line and the new heading after the Unreleased heading, links expanded, nothing else |
| Changelog.RewriteRollsSections | scripts/release_changelog.py:48-63 | read as sections: Unreleased is emptied, the new section gets its body, every other section is kept |
| Changelog.RenderParse | scripts/release_changelog.py:36-50 | the reading as sections loses nothing |
| Changelog.SucceedsIff | scripts/release_changelog.py:19-46 | the script succeeds if and only if there is an Unreleased heading with a heading below it, a link line, and no section of that version |
| Changelog.SecondRun | scripts/release_changelog.py:26-34 | as a function on text, a second rewriting for the same version fails as a duplicate if and only if the version has no newline |
| ChangelogFile.SecondScriptRun | scripts/release_changelog.py:91-107 | from file to file: a second run for the same version fails as a duplicate if and only if the version has neither a newline nor a carriage return, which reading the file turns into a newline |
| ChangelogFile.BrokenVersionRunsAgain | scripts/release_changelog.py:26-34 | with a newline or carriage return in the version, any file that can be rewritten at all is rewritten by a first and by a further run |
| ChangelogFile.RunsTwice | scripts/release_changelog.py:16-80 | a file and two versions, one with a newline and one with a carriage return, with which two runs succeed |
| ChangelogFile.LinesReread | scripts/release_changelog.py:92-93 | what reading a file back makes of its lines: each is read on its own, a return before its end belonging to the end |
| ReleaseChains.VersionsApart | scripts/release_changelog.py:30-34 | the heading of one bracket-free version is not mistaken for that of another |
| Changelog.CleanRewrite | scripts/release_changelog.py:17-80 | for arguments without newlines, splitting the result gives back exactly the rolled lines |
| ChangelogFile.CleanScript | scripts/release_changelog.py:91-107 | for arguments without line breaks of either kind, the lines the next run finds in the file are exactly the rolled lines |
| ReleaseChains.OneRelease | scripts/release_changelog.py:57-80 | a clean release of a new version succeeds, keeps the file releasable and puts its heading on top |
| ReleaseChains.ReleaseChain | scripts/release_changelog.py:57-80 | any sequence of clean releases with distinct new versions, each run reading back the file of the one before, succeeds and leaves the headings newest first above the earlier ones |
| ReleaseChains.ChainReads | scripts/release_changelog.py:57-63 | a reader of the final file gets version and date of every release of the chain, newest first |
| ReleaseChains.LinkChain | scripts/release_changelog.py:65-75 | after such a sequence, a link line of the original file has become one block: the Unreleased link of the newest release, then the links of all releases, newest first |
| ReleaseChains.ChainBlockContiguous | scripts/release_changelog.py:71-72 | when each release names the one before as previous, the comparisons of that block meet end to end, from HEAD down |

## Left out

- Text outside ASCII: Unicode case folding and Unicode white space are not modelled; trimming, lower case and comparison are those of ASCII text.
- Message parsing: MIME walking, header decoding and address-list parsing are external libraries; the session starts from the parsed header lists, subject and bodies.
- SMTP command order: go-smtp refuses some sequences of calls (DATA without MAIL, for instance); the session lemmas hold for every sequence, so nothing is lost.
- The PLAIN mechanism: it is go-sasl's; it calls the modelled `Authenticate` once.
- HTTP, TLS, timers and the clock: an exchange is lost or answered, a date is the time left until it; per-attempt timeouts appear as lost exchanges.
- JSON encoding of bytes: taken as the identity on values, with an undecodable body as a separate outcome; request and response headers other than Authorization, Retry-After and Content-Length are not modelled.
- Relay.TalksToWorker: excludes another server that answers success: true in JSON; the relay takes its word (see Delivery.ParseWorkerResponse). All its other answers are covered.
- Relay.SecretsCompared: the header arrives as sent; HTTP strips blanks around header values and reads their bytes one by one, so a secret with trailing blanks or non-ASCII letters fails even when both sides agree.
- ChangelogFile.RunScript: a file whose lines end in "\n", as on Linux; encoding errors are not modelled.
- Backoff.Int63n: the library's generator is a draw modulo its argument; its distribution is not modelled.
- The retry counter: unbounded in the model; the configuration limits it to five.
- SendLoop.Send: request building and reading the response are one step, and the raw body is represented by what each adapter decodes from it.
- Recipients.SplitRecipients: the source writes the header loop and the envelope loop out twice each; the model has one method for each.
- Payload.BuildPayload: nil and empty slices are not told apart, since both are omitted from the JSON text.
- Message.Message: size and time of receipt are not carried; they influence no decision.
- Texts: error wording, provider messages and the truncation and level of log records; reasons are an enumeration and the log's duration is dropped.
- Timing of the credential comparisons: only their result is modelled.
- Configuration loading, the health endpoint, startup and shutdown, and the release script's command line and file access: straight-line code or input and output.
