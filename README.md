# AI-IDS decision rules in Dafny

AI-IDS is a small intrusion-detection system. A Python back end captures packets with scapy and turns each one into a feature record. A trained classifier labels the record, and threats are appended to an alert log. A Flask application exposes prediction, upload, alert-listing and retraining endpoints behind a session login. A pandas module cleans and encodes training tables. A React front end simulates and analyses packets in the browser, detects instruction-like sentences in text, and keeps a sign-in context. OTP helpers generate and check one-time codes.

This project models the decision rules and state updates of that code and proves what they promise:

- `Common` (common.dfy): the Python values the handlers see, including truthiness, `== 0`, `== "threat"` and `dict.get`, and the exceptions they raise.
- `AlertLog` (alert_log.dfy): the alert log as an append-only file of records. Each line is one record's JSON object.
- `Capture` (capture.py): `packet_to_dict` over a stack of layers, and `process_packet` appending an alert on a "threat" label.
- `App` (app.py): the session-guarded dashboard, login and logout, the `/predict` label mapping, `/api/upload`, `/api/alerts` and the `/api/update_model` guard.
- `Preprocess` (preprocess.py): `clean_data` over a table of optional cells, and `feature_extraction`'s label encoding of `protocol`, which updates the frame in place.
- `NetworkAnalyzer` (utils/networkAnalyzer.ts, types/network.ts): `analyzePacket`'s three rules and the ranges of `generateNetworkPacket`.
- `Dashboard` (components/NetworkDashboard.tsx): the initial state and the once-a-second tick, with its two sliding windows and two counters.
- `InstructionAnalyzer` and `InstructionAnalyzerExamples` (utils/analyzer.ts, utils/analyzer.test.ts): `analyzeText` and `INSTRUCTION_PATTERNS`, plus the four test cases and a whole-word case.
- `ResultCard` (components/ResultCard.tsx): the severity and the colour it selects.
- `Auth` (context/AuthContext.tsx): the auth provider's state cell and `useAuth`.
- `Otp` (utils.py): `generate_otp`, `send_alert_email` and `send_otp_email` up to the SMTP session, `register_user` and `verify_otp`.

Collaborators the code only calls are function parameters of the model:

- the classifier `make_prediction`;
- `preprocess_data`;
- `probability.tolist()`;
- mail sending.

Random draws, generated ids and clock readings are parameters too.

Two properties of the code shape the model:

- The capture callback appends to `alerts.log`, but the upload handler and `/api/alerts` use `logs/alerts.log`. They are two separate files, so alerts raised by live capture never reach the dashboard endpoint. Each `AlertFile` object in the model is one of these files.
- `/api/update_model` calls `update_model`, and the inference module imports `preprocess_single_record`. Neither function is defined anywhere in the code.

## Model

| member | source | states |
|---|---|---|
| Common.Get | src/app.py:101-102 | `dict.get(key)` returns the stored value when the key is present and None when it is absent |
| AlertLog.ToValue | src/capture.py:54-60 | an alert line is a JSON object with exactly the five keys timestamp, src_ip, dest_ip, prediction and probability |
| AlertLog.FromValue | src/app.py:115 | reading a line back: a record when the object has the five keys and a string timestamp, None otherwise |
| AlertLog.ReadBackWritten | src/app.py:115 | a written alert line parses back to the record that was written |
| AlertLog.WrittenFromRead | src/app.py:115 | a five-key line that parses as a record is exactly the line that record writes, so writing and reading are inverse |
| AlertLog.AlertFile.constructor | src/app.py:113-118 | before anything is written, the log file does not exist and holds no lines |
| AlertLog.AlertFile.Open | src/capture.py:53 | opening in append mode creates the file and keeps every existing line |
| AlertLog.AlertFile.Append | src/capture.py:53-60 | an append adds one line at the end and alters no existing line |
| AlertLog.Lines | src/app.py:115 | reading the file gives one parsed object per stored record, in file order |
| AlertLog.LinesReadBack | src/app.py:115 | each parsed line reads back as the record stored at the same position |
| Capture.Lookup | src/capture.py:23-27 | a layer's attribute is found exactly when that layer or a layer it carries has it, and the value comes from the first such layer |
| Capture.PacketToDict | src/capture.py:21-33 | the record of a packet: addresses and protocol from layer 1, ports from layer 2 when it has them, and the packet length; None when layer 1 or 2 is missing; the AttributeError of a missing src, dst or proto otherwise |
| Capture.ShortPacketNoRecord | src/capture.py:21-33 | a packet without layer 1 gives None rather than raising; a packet without layer 2 never yields a record |
| Capture.RecordFields | src/capture.py:22-31 | a record's addresses and protocol come from layer 1; its ports come from layer 2 when it has them and are None otherwise; its size is the packet length |
| Capture.CompletePacketRecord | src/capture.py:22-31 | a packet with three layers and src, dst and proto on layer 1 always yields a record, whatever its ports |
| Capture.RaisesOnlyForMissingField | src/capture.py:21-33 | the only exception that escapes is a missing src, dst or proto attribute of layer 1; IndexError never escapes |
| Capture.CaptureAlert | src/capture.py:42-60 | the alert `process_packet` appends: none without a record or for a label other than "threat", otherwise the record's addresses, the label, the time and the `tolist()` probability; an exception of `packet_to_dict` passes through |
| Capture.ProcessPacket | src/capture.py:35-60 | the capture log gains exactly the alert CaptureAlert describes and is otherwise unchanged, including whether the file exists |
| Capture.NoRecordNoClassifier | src/capture.py:42-43 | when no record is extracted, the classifier plays no part and nothing is written |
| Capture.AlertIffThreat | src/capture.py:43-60 | an alert is written exactly when a record was extracted and labelled "threat"; it carries the record's addresses, the "threat" label and the time |
| App.Session.constructor | src/app.py:40 | a session starts with the entries it was given |
| App.Session.Dashboard | src/app.py:38-42 | the dashboard redirects to login exactly when `user_id` is absent, and renders the dashboard page otherwise |
| App.Session.Login | src/app.py:53-59 | a POST sets `user_id` and redirects to the dashboard; a GET renders the form and leaves the session unchanged |
| App.Session.Logout | src/app.py:62-65 | logout removes `user_id`, whether or not it was present, and redirects to login |
| App.LoginOpensDashboard | src/app.py:38-59 | after a POST to login the dashboard is shown, and every other session entry is untouched |
| App.LogoutClosesDashboard | src/app.py:38-65 | after logout the dashboard redirects to login; other entries stay; logging out without a user changes nothing |
| App.SessionIdempotent | src/app.py:53-65 | logging out twice equals logging out once, and logging in twice equals logging in once |
| App.ResultText | src/app.py:49 | "Normal" for a label equal to 0, "Threat Detected" for any other |
| App.Predict | src/app.py:46-50 | the 200 answer with the result text of the label and the probability, for the classifier applied to `data` or to []; a body that is not an object raises on `.get` |
| App.PredictMapsLabel | src/app.py:46-50 | the result is "Normal" exactly when the label equals 0 (0 or False) and "Threat Detected" otherwise; the probability is passed through; a body without "data" is classified as the empty list |
| App.ThreatLabelIsThreatDetected | src/app.py:49 | a "threat" label is reported as "Threat Detected", because it is not 0 |
| App.Upload | src/app.py:85-108 | one upload's answer and alert: 400 for a falsy body; otherwise 200 with the prediction and probability, plus an alert built with `data.get` when the label is "threat", where a body that is not an object raises after the log was opened |
| App.UploadData | src/app.py:84-108 | the alert log gains exactly the alert Upload describes, and the answer is Upload's answer |
| App.EmptyUploadRefused | src/app.py:86-88 | a missing or empty body gets 400 "No data provided"; nothing is classified, opened or written |
| App.UploadAlertIffThreat | src/app.py:97-106 | for an object body, one alert is appended exactly when the label is "threat"; it carries the request's src_ip and dest_ip, or None when a key is absent |
| App.UploadReportsPrediction | src/app.py:108 | an answered upload always returns status 200 with exactly the computed prediction and probability, whether or not an alert was written |
| App.UploadAlertReadable | src/app.py:98-115 | every alert the upload writes reads back intact through the alerts endpoint |
| App.GetAlerts | src/app.py:111-118 | the alerts endpoint returns one parsed record per stored line, in file order, and the empty list when the file does not exist |
| App.Trainer.constructor | src/app.py:127 | the retraining collaborator has received nothing yet |
| App.TrainModel | src/app.py:121-128 | an empty body gets 400 and does not reach `update_model`; any other body is handed over once, and the success message is returned |
| App.TrainAnswer | src/app.py:123-128 | status 400 with the "No data provided for training" error exactly when the body is empty, and 200 with the success message otherwise |
| Preprocess.DropDuplicates | src/preprocess.py:29 | the rows with every repeat of an earlier row removed, first occurrences in order |
| Preprocess.DropMissing | src/preprocess.py:32 | the rows without a missing cell, in order |
| Preprocess.WithoutTimestamp | src/preprocess.py:35-36 | the entries of a row, or of the column list, whose column is not timestamp, in order |
| Preprocess.CleanData | src/preprocess.py:18-38 | `drop_duplicates`, then `dropna`, then the timestamp column dropped when there is one |
| Preprocess.DropDuplicatesKeepsRows | src/preprocess.py:29 | `drop_duplicates` keeps exactly the distinct rows of its input, with no two equal, in input order |
| Preprocess.DropDuplicatesOfDistinct | src/preprocess.py:29 | `drop_duplicates` leaves a table without duplicates unchanged |
| Preprocess.DropMissingKeepsRows | src/preprocess.py:32 | `dropna` keeps exactly the rows with no missing cell, in input order, and keeps rows distinct |
| Preprocess.DropMissingOfComplete | src/preprocess.py:32 | `dropna` leaves a table with no missing cell unchanged |
| Preprocess.WithoutTimestampKeeps | src/preprocess.py:35-36 | dropping the timestamp column keeps every other cell, and changes nothing when there is no timestamp column |
| Preprocess.WithoutTimestampColumns | src/preprocess.py:35-36 | after the drop, no column is named timestamp, every other column is kept, and their order is kept |
| Preprocess.ProjectSubsequence | src/preprocess.py:35-36 | dropping a column preserves the relative order of rows |
| Preprocess.ProjectIdentity | src/preprocess.py:35-36 | without a timestamp column the drop is skipped and the rows are unchanged |
| Preprocess.CleanDataShape | src/preprocess.py:18-38 | the cleaned table is well formed, has no missing cell and no timestamp column, and keeps every other input column in order |
| Preprocess.CleanDataProjects | src/preprocess.py:28-37 | the cleaned rows are the surviving input rows restricted to the remaining columns |
| Preprocess.CleanDataKeepsOrder | src/preprocess.py:28-37 | the cleaned rows appear in the same relative order as in the input |
| Preprocess.CleanDataRows | src/preprocess.py:28-37 | a row is in the output exactly when it is a complete input row restricted to the remaining columns |
| Preprocess.MissingTimestampDropsRow | src/preprocess.py:32-36 | a row whose missing cells all lie in timestamp columns is dropped, because `dropna` runs before the column drop, although without its timestamp it would be complete |
| Preprocess.MissingTimestampExample | src/preprocess.py:32-36 | the one-row table [None, "TCP"] under [timestamp, protocol] cleans to an empty table with the single column protocol |
| Preprocess.CleanDataTwice | src/preprocess.py:18-38 | cleaning the output again only removes the duplicates the first pass created |
| Preprocess.CleanDataOfTwo | src/preprocess.py:29-36 | two distinct complete rows that agree outside their timestamp both survive and become two equal rows |
| Preprocess.CleanDataDeduplicatedOfTwo | src/preprocess.py:29-36 | with duplicates dropped after the column drop, the same two rows become a single row |
| Preprocess.CleanDataLeavesDuplicates | src/preprocess.py:29-36 | rows that differ only in their timestamp come out as equal rows, so the output can hold duplicates and cleaning is not idempotent |
| Preprocess.CleanDataDeduplicated | src/preprocess.py:28-36 | the corrected pipeline: `dropna`, then the timestamp column, then `drop_duplicates` last |
| Preprocess.CleanDataDeduplicatedRows | src/preprocess.py:18-38 | the corrected pipeline produces the same columns and the same set of rows as `clean_data` |
| Preprocess.CleanDataDeduplicatedShape | src/preprocess.py:18-38 | the corrected output has no two equal rows, no missing cell and no timestamp column |
| Preprocess.CleanDataDeduplicatedIdempotent | src/preprocess.py:18-38 | the corrected pipeline gives the same table when applied twice |
| Preprocess.CleanDataDeduplicatedExample | src/preprocess.py:29-36 | on the two-timestamp table, the corrected pipeline keeps one row |
| Preprocess.CellLessOrder | src/preprocess.py:52-53 | the ordering used for classes (integers numerically, strings as Python compares them) is a strict order that is total within each kind |
| Preprocess.ColumnIndex | src/preprocess.py:51-53 | the position of the protocol column: the first column of that name, which is the one `df['protocol']` selects once a second column of that name is ruled out |
| Preprocess.Code | src/preprocess.py:52-53 | a value's label: the number of classes below it, with a missing value after every class |
| Preprocess.EncodeColumn | src/preprocess.py:52-53 | every row with the protocol cell replaced by its label and the other cells untouched |
| Preprocess.ExtractFeatures | src/preprocess.py:51-58 | unchanged without a protocol column; an error for a duplicated protocol column or for one mixing numbers and strings; otherwise the column replaced by its labels |
| Preprocess.CodeInjective | src/preprocess.py:52-53 | two values get the same code exactly when they are equal |
| Preprocess.CodeMonotone | src/preprocess.py:52-53 | a smaller class gets a smaller code, as with LabelEncoder's sorted classes |
| Preprocess.ExtractWithoutProtocol | src/preprocess.py:51-58 | without a protocol column the table comes back unchanged |
| Preprocess.ExtractFailures | src/preprocess.py:51-53 | the encoding raises exactly when the protocol column is duplicated or mixes numbers with strings |
| Preprocess.ExtractKeepsOtherCells | src/preprocess.py:51-53 | a successful encoding keeps the row count and every cell outside the protocol column, and gives each protocol cell an integer |
| Preprocess.ExtractLabels | src/preprocess.py:52-53 | codes lie in [0, number of classes); equal protocol values get equal codes and different values get different codes; a smaller value gets a smaller code |
| Preprocess.Frame.constructor | src/preprocess.py:40 | a frame holds the table it was built from |
| Preprocess.Frame.FeatureExtraction | src/preprocess.py:40-58 | the protocol column is replaced in place by its codes, as ExtractFeatures describes, and an error leaves the frame unchanged |
| NetworkAnalyzer.IsSuspicious | src/utils/networkAnalyzer.ts:39-42 | the three rules: RST among the flags, a size over 1400, or HTTP with SYN |
| NetworkAnalyzer.AnalyzePacket | src/utils/networkAnalyzer.ts:38-57 | a high-severity alert with the packet's addresses, the fixed description and "Block connection" for a suspicious packet, and none otherwise |
| NetworkAnalyzer.AnalyzePacketAlerts | src/utils/networkAnalyzer.ts:38-57 | an alert is returned exactly when the flags contain RST, the size exceeds 1400, or the packet is an HTTP SYN; it copies both addresses and has high severity, the fixed description and "Block connection" |
| NetworkAnalyzer.SizeBoundary | src/utils/networkAnalyzer.ts:41 | the size rule is strict: 1400 bytes alone is not flagged, and 1401 is |
| NetworkAnalyzer.HttpsSynNotFlagged | src/utils/networkAnalyzer.ts:42 | the protocol rule compares whole strings, so an HTTPS SYN of ordinary size is not flagged |
| NetworkAnalyzer.Pick | src/utils/networkAnalyzer.ts:11-15 | `Math.floor(Math.random() * n)` is an index below n |
| NetworkAnalyzer.PickReaches | src/utils/networkAnalyzer.ts:11-15 | every index below n is produced by some draw |
| NetworkAnalyzer.Decimal | src/utils/networkAnalyzer.ts:11-12 | an octet is written as a non-empty string of decimal digits |
| NetworkAnalyzer.DecimalDenotes | src/utils/networkAnalyzer.ts:11-12 | the digits written for a number denote that number |
| NetworkAnalyzer.GenerateNetworkPacket | src/utils/networkAnalyzer.ts:4-17 | a packet built from the draws: addresses 192.168.a.b and 10.0.c.d, a protocol, a size and one flag, each chosen by `Math.floor(r * n)` |
| NetworkAnalyzer.GeneratedPacketRanges | src/utils/networkAnalyzer.ts:4-17 | a generated packet has a size in [0, 1499], one of the four protocols, exactly one of the five flags, and addresses in 192.168.x.y and 10.0.x.y with octets below 255 |
| NetworkAnalyzer.EverySizeGenerated | src/utils/networkAnalyzer.ts:14 | every size from 0 to 1499 can be generated |
| NetworkAnalyzer.GeneratedPacketVerdict | src/utils/networkAnalyzer.ts:13-42 | a generated packet is flagged exactly when its single flag is RST, it exceeds 1400 bytes, or it is an HTTP SYN |
| Dashboard.SliceLast | src/components/NetworkDashboard.tsx:41-43 | `slice(-n)` keeps the last n elements in order, or all of them when there are fewer |
| Dashboard.SlideWindow | src/components/NetworkDashboard.tsx:41-43 | trimming to n and appending a new element yields the last n + 1 elements of the history, so the window slides by one |
| Dashboard.Flagged | src/components/NetworkDashboard.tsx:42-44 | every flagged packet of a run is a suspicious packet of that run, and there are no more flagged packets than packets |
| Dashboard.FlaggedAppend | src/components/NetworkDashboard.tsx:42-47 | adding a packet keeps earlier verdicts and adds the new packet exactly when it is suspicious |
| Dashboard.NetworkDashboard.constructor | src/components/NetworkDashboard.tsx:28-34 | the dashboard starts with no packets, no alerts and both counters at 0 |
| Dashboard.AlertsMatchStep | src/components/NetworkDashboard.tsx:42-47 | when an alert with the packet's addresses is raised exactly for a suspicious packet, the alerts stay in step with the flagged packets, one for one |
| Dashboard.StepKeepsInvariant | src/components/NetworkDashboard.tsx:37-49 | one tick's new windows and counters again hold the last 51 packets, the last 11 alerts and the two counts of the run |
| Dashboard.NetworkDashboard.Record | src/components/NetworkDashboard.tsx:41-48 | the packet window gets the new packet after the last 50 earlier ones; the alert window gets the alert after the last 10 only when one was raised; the counters rise accordingly; the invariant is kept |
| Dashboard.InvariantBounds | src/components/NetworkDashboard.tsx:28-49 | a state meeting the invariant keeps at most 51 packets and 11 alerts, the newest last, and counts no more threats than packets |
| Dashboard.NetworkDashboard.Tick | src/components/NetworkDashboard.tsx:37-49 | the new packet ends the packet window after the last 50 earlier ones; the alert window changes only when an alert was raised, and then ends with it; packetsAnalyzed rises by 1; threatsDetected rises by 1 exactly when an alert was raised; the invariant is kept |
| Dashboard.ValidBounds | src/components/NetworkDashboard.tsx:28-49 | at all times at most 51 packets and 11 alerts are kept, the newest last, and threatsDetected never exceeds packetsAnalyzed |
| InstructionAnalyzer.Sentences | src/utils/analyzer.ts:10 | the maximal runs of characters other than '.', '!' and '?', in order |
| InstructionAnalyzer.Trim | src/utils/analyzer.ts:13 | the part of a string between its leading and its trailing white space |
| InstructionAnalyzer.PatternTest | src/utils/analyzer.ts:1-6 | some alternative of the pattern occurs, case-insensitively, between word boundaries |
| InstructionAnalyzer.Instructions | src/utils/analyzer.ts:8-20 | the trimmed sentences that match some pattern, in order |
| InstructionAnalyzer.FragmentLength | src/utils/analyzer.ts:10 | a sentence fragment runs up to the first '.', '!' or '?' |
| InstructionAnalyzer.TrimIsSlice | src/utils/analyzer.ts:13 | `trim` removes exactly the leading and trailing white space and nothing else |
| InstructionAnalyzer.TrimUnpadded | src/utils/analyzer.ts:13 | trimming a string without surrounding white space leaves it unchanged |
| InstructionAnalyzer.AnalyzeText | src/utils/analyzer.ts:8-20 | the loop returns the trimmed fragments that match some pattern, in order, which is Instructions |
| InstructionAnalyzer.SentencesAreFragments | src/utils/analyzer.ts:10 | split-and-filter gives non-empty fragments without terminators that together are the text minus its terminators |
| InstructionAnalyzer.SentencesSplit | src/utils/analyzer.ts:10 | a terminator separates the sentences on its two sides |
| InstructionAnalyzer.InstructionsSplit | src/utils/analyzer.ts:10-17 | the instructions of text split at a terminator are those of each side, in order |
| InstructionAnalyzer.KeptFromSentences | src/utils/analyzer.ts:12-17 | every result is the trimmed form of some fragment and matches a pattern |
| InstructionAnalyzer.KeptAllMatches | src/utils/analyzer.ts:12-17 | every fragment whose trimmed form matches a pattern is returned |
| InstructionAnalyzer.InstructionsAreTrimmedMatches | src/utils/analyzer.ts:1-17 | every result contains a keyword as a whole word (case-insensitive), is non-empty, has no '.', '!' or '?', and has no surrounding white space |
| InstructionAnalyzer.NoMatchNoInstructions | src/utils/analyzer.ts:12-19 | text with no matching fragment yields no instructions |
| InstructionAnalyzer.SomePatternTestIff | src/utils/analyzer.ts:1-14 | `some(pattern.test)` succeeds exactly when a keyword of some pattern occurs, case-insensitively, between word boundaries |
| InstructionAnalyzer.KeywordsAreLetterInitial | src/utils/analyzer.ts:1-6 | every keyword starts with a letter, so no match starts at a non-word character |
| InstructionAnalyzerExamples.DetectsMustInstruction | src/utils/analyzer.test.ts:4-7 | "You must follow these guidelines." yields exactly that sentence without its full stop |
| InstructionAnalyzerExamples.DetectsCriticalInstruction | src/utils/analyzer.test.ts:9-12 | "This is a CRITICAL requirement." yields that sentence: the match ignores case |
| InstructionAnalyzerExamples.DetectsMultipleInstructions | src/utils/analyzer.test.ts:14-18 | the three-sentence text yields its three sentences, in order |
| InstructionAnalyzerExamples.IgnoresNonInstructionText | src/utils/analyzer.test.ts:20-23 | a sentence without a keyword yields nothing |
| InstructionAnalyzerExamples.IgnoresKeywordInsideWord | src/utils/analyzer.ts:2 | "Pass the mustard." yields nothing: a keyword inside a longer word is not a match |
| ResultCard.Severity | src/components/ResultCard.tsx:9 | high when the lower-cased instruction includes "critical", medium otherwise |
| ResultCard.StylingFor | src/components/ResultCard.tsx:12-20 | the red classes for high and the yellow classes otherwise |
| ResultCard.Lower | src/components/ResultCard.tsx:9 | lower-casing maps each character and keeps the length |
| ResultCard.IncludesIff | src/components/ResultCard.tsx:9 | `includes` succeeds exactly when the substring occurs at some position |
| ResultCard.SeverityHighIff | src/components/ResultCard.tsx:9 | severity is high exactly when "critical", in any mix of cases, occurs somewhere in the instruction, and medium otherwise |
| ResultCard.UpperCaseCritical | src/components/ResultCard.tsx:9 | "CRITICAL" gives high |
| ResultCard.CapitalizedCritical | src/components/ResultCard.tsx:9 | "Critical" gives high |
| ResultCard.CriticalInsideWord | src/components/ResultCard.tsx:9 | "noncritical" gives high: the test is a substring test, not a whole-word test |
| ResultCard.ShortInstructionMedium | src/components/ResultCard.tsx:9 | an instruction shorter than eight characters is always medium |
| ResultCard.RedIffHigh | src/components/ResultCard.tsx:12-20 | the card is red exactly when severity is high and yellow exactly when it is medium |
| Auth.NameOf | src/context/AuthContext.tsx:20 | `email.split('@')[0]` is the prefix before the first '@', or the whole string when there is none |
| Auth.NameOfSplits | src/context/AuthContext.tsx:20 | an address with an '@' is its name, the '@' and the rest |
| Auth.LoginState | src/context/AuthContext.tsx:18-22 | signed in with the email and the name before '@' |
| Auth.RegisterState | src/context/AuthContext.tsx:24-28 | signed in with the given name and email |
| Auth.AuthStates | src/context/AuthContext.tsx:13-32 | login signs in with the email and the name before '@'; register signs in with exactly the given name and email; logout and the initial state have no user; each of these states is authenticated exactly when it has a user |
| Auth.PasswordIgnored | src/context/AuthContext.tsx:18-28 | the password never influences the resulting state |
| Auth.AuthProvider.constructor | src/context/AuthContext.tsx:13-16 | the provider starts with no user and not authenticated |
| Auth.AuthProvider.Login | src/context/AuthContext.tsx:18-22 | login sets the login state, which is consistent |
| Auth.AuthProvider.Register | src/context/AuthContext.tsx:24-28 | register sets the register state, which is consistent |
| Auth.AuthProvider.Logout | src/context/AuthContext.tsx:30-32 | logout clears the user whatever the prior state, and the result is consistent |
| Auth.UseAuth | src/context/AuthContext.tsx:41-47 | `useAuth` raises the fixed error exactly when there is no enclosing provider, and otherwise returns the provider's state |
| Otp.GenerateOtp | src/utils.py:86-91 | the code has exactly `length` characters (none when the length is zero or negative), each the digit drawn for its position |
| Otp.OtpIsDigits | src/utils.py:90-91 | every character of the code is a decimal digit |
| Otp.EveryCodeGenerated | src/utils.py:90-91 | every string of digits can be generated, so no code is excluded |
| Otp.OtpMessageIgnoresReceiver | src/utils.py:37-102 | as written, the OTP message goes to the configured alert receiver, and the receiver argument makes no difference |
| Otp.OtpMissesUser | src/utils.py:37-102 | a registering user whose address is not the alert receiver does not receive their code |
| Otp.OtpMessage | src/utils.py:94-102 | the message `send_otp_email` hands on: to the configured alert receiver, subject "Your OTP Code", body "Your OTP code is: " and the code |
| Otp.SendAlertEmail | src/utils.py:37-69 | an exception from reading the configuration propagates; otherwise the result is whether the SMTP session delivered the message from the configured sender to the configured alert receiver |
| Otp.SendOtpEmail | src/utils.py:94-102 | a configuration error propagates; otherwise the result is whether the alert-receiver OTP message was delivered |
| Otp.OtpMessageToReachesUser | src/utils.py:94-102 | the corrected message goes to the given address from the configured sender, with subject "Your OTP Code" and body "Your OTP code is: " followed by the code |
| Otp.RegisterUser | src/utils.py:105-115 | as written: the six-digit code when the OTP message to the alert receiver is delivered, None when it is not, and the configuration exception when reading the configuration raises |
| Otp.RegisterThenVerify | src/utils.py:105-127 | as written, a configuration error propagates unchanged; otherwise registration returns the six-digit code exactly when the message to the configured alert receiver is delivered, and a typed code is then accepted exactly when that delivery succeeded and the code matches |
| Otp.RegisterIgnoresEmail | src/utils.py:94-115 | as written, the outcome of registration is the same whatever address is registered |
| Otp.RegisterUserCorrected | src/utils.py:105-115 | registration with the code mailed to the registering address |
| Otp.RegisterCorrectedThenVerify | src/utils.py:105-127 | corrected, a configuration error propagates; otherwise the code is returned exactly when the message to the registering address is delivered, and only that code is then accepted |
| Otp.VerifyOtp | src/utils.py:118-127 | the typed code is accepted when it equals the stored one |
| Otp.FailedRegistrationRejects | src/utils.py:109-127 | after a failed send, no typed code is accepted |
| Otp.VerifyOtpExact | src/utils.py:118-127 | `verify_otp` accepts the stored code and nothing else |

## Left out

- The classifier: `make_prediction`, `load_model` and the pickle loading in src/inference.py. They are function parameters. src/inference.py is not part of this model.
- src/train.py and `update_model`: sklearn fitting and pickle saving. The retraining endpoint only records the bodies it hands over.
- `normalize_features` and `load_data`: StandardScaler floating-point arithmetic and CSV reading.
- `preprocess_data` in the upload handler: it is a parameter. The handler passes it a request dictionary, not a file path.
- Floating-point numbers and numpy arrays: probabilities are opaque tokens. `probability.tolist()` is a parameter.
- Floating-point request bodies and labels are not modelled. In Python `0.0` is falsy and equal to 0, so a body `0.0` would be refused and a label `0.0` would read as "Normal". A numpy array of several elements raises when tested for truth.
- App.Upload: assumes that `json.dumps` and `jsonify` serialise the raw probability. The code passes the classifier's probability without `.tolist()`, and serialising a numpy array raises TypeError; App.UploadReportsPrediction and App.UploadAlertReadable rely on this assumption.
- App.Predict: likewise assumes that `jsonify` serialises the raw probability.
- App.EmptyUploadRefused: `Null` stands for `request.json` being None, as for a JSON `null` body. A request without a JSON content type is not modelled: depending on the Flask version, `request.json` is then None or the request fails with 415.
- Packet sniffing, the daemon capture thread and loading the model at import time: these are I/O and concurrency.
- `send_alert_email`'s SMTP session, `setup_logger`, `log_alert`, `log_info`, `print` and src/utils/emailAlert.ts: these are I/O. Sending mail is a parameter that reports success.
- JSON text: an alert line is modelled as the decoded object of one record. The modelled alerts-log directory is assumed to exist, so opening it in append mode always succeeds.
- Flask's rendering, `url_for` and the `/register` and `/verify_otp` routes: those routes only redirect or render a form.
- UI rendering, charts and dates in the dashboard; src/App.tsx, AuthTabs.tsx and TextAnalyzer.tsx; `initializeModel` (TensorFlow.js).
- Randomness and clocks: `Math.random`, `Date.now`, `datetime.now` and `random.choice` are parameters. Ids from `Math.random().toString(36)` are parameters too.
- ResultCard.Lower: `toLowerCase` is modelled on ASCII letters only. Non-ASCII letters are kept as they are, although JavaScript maps some of them to lower case, and some to two characters. The regex `i` flag outside unicode mode never folds a non-ASCII character to an ASCII one, so InstructionAnalyzer.LowerChar is exact for the keywords.
- Preprocess.Cell: table cells are integers or strings. Floating-point cells and NaN are not modelled, and a missing value is None.
- Preprocess.CleanData: pandas row index labels are not modelled, only row order.
- Preprocess.ExtractFeatures: LabelEncoder's message for mixed types is reduced to TypeError.
- Otp.SendAlertEmail: reading the configuration file is a parameter, the outcome of the reads at src/utils.py:42-49. An unreadable file, a missing option and a non-integer port all appear as that outcome's exception.
- Dashboard.NetworkDashboard.Tick: React's batching of the three state updates is not modelled. The tick is treated as one atomic step.

## Findings

| source | as written | input that shows it | evidently intended | confidence | as-written member | corrected member |
|---|---|---|---|---|---|---|
| src/preprocess.py:28-36 | duplicates are dropped before the timestamp column, so rows differing only in timestamp become equal afterwards | columns [timestamp, protocol], rows [1, "TCP"] and [2, "TCP"] give two equal rows ["TCP"]; a second `clean_data` removes one | the cleaned table holds no duplicate rows, and cleaning is idempotent | not executed | Preprocess.CleanDataLeavesDuplicates | Preprocess.CleanDataDeduplicatedIdempotent |
| src/utils.py:94-102 | `send_otp_email` never uses `receiver_email`; the OTP goes to the configured alert receiver | registering "user@example.com" with alert receiver "admin@example.com" mails the code to the admin | the code is mailed to the registering user | not executed | Otp.OtpMissesUser | Otp.RegisterCorrectedThenVerify |
