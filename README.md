# English test portal: grading, session gate, test store, statistics and menu

This project models the logic inside a browser app where teachers publish English tests and students take them. The app itself is mostly React UI; the model covers the parts that decide something:

- **Grading** (`TextNormalizer`, `Grading`). The free-text normaliser: lower-case, trim, collapse each white-space run to one space, then delete `.`, `?`, `!` and `,`. The per-question rule: multiple choice needs exact equality; free text needs equal normal forms; a missing answer is `""`. The count of correct answers (a `while` loop proved against a recursive count). The score out of 10, rounded half up to one decimal. Scores are kept as integer tenths (`Tenths(v)`, 0..100). A test with no questions scores `NaN`, as the division by zero does in the app.
- **Student portal** (`Portal`). A class with the component's state: `name`, `className`, `started`, `finished`, `currentResult`, `answers`, `error`. Its handlers are methods: editing the identity fields, the start gate, choosing an option, typing an answer, submitting, going back. The gate checks publication before identity. An absent `isPublished` flag counts as unpublished.
- **Application store** (`AppStore`). A class with `userRole`, `currentView`, `activeTest`, `results`, and the browser's storage as a map from key to stored value under the keys `"activeTest"` and `"results"`. Modelled: loading from storage, the two persistence effects, the URL rule applied at load, storage events from other tabs, role selection, navigation, logout, installing a generated test as a draft, toggling publication, appending a result, and deleting the test.
- **Statistics** (`Statistics`). The four-bucket histogram, the pass count and pass rate (an exact `real`), the pie values, the colour and rank given to each score, and the newest-first table order.
- **Menu** (`Menu`). The fixed menu entries and the filter deciding which entries each role sees.

Three edge cases follow the code as written:
- a test with zero questions gives a `NaN` score, not an error;
- a `testData` URL parameter that fails to decode is ignored together with the `role` parameter beside it;
- toggling a test whose `isPublished` flag is absent publishes it, because `!undefined` is `true`.

The URL decoder is a parameter `decode: string -> Option<TestData>`. Result ids, timestamps and the teacher's confirmation answer are parameters too.

## Model

| member | source | states |
|---|---|---|
| Types.Truthy | types.ts:34 | the optional publication flag counts as true exactly when it is present and true |
| TextNormalizer.IsSpace | components/StudentPortal.tsx:20 | the characters `trim` and `\s` treat as white space: tab, line feed, vertical tab, form feed, carriage return, space, U+00A0, U+1680, U+2000 to U+200A, U+2028, U+2029, U+202F, U+205F, U+3000 and U+FEFF |
| TextNormalizer.Lower | components/StudentPortal.tsx:20 | same length; each character is lowered one for one; no upper-case letter remains |
| TextNormalizer.Trim | components/StudentPortal.tsx:20 | the result is a slice of the input with only white space cut from either end, and neither of its ends is white space |
| TextNormalizer.Collapse | components/StudentPortal.tsx:20 | empty exactly when the input is; it starts with a space exactly when the input starts with white space, and otherwise with the input's first character (the one-space-per-run rule is stated by `InteriorRun`) |
| TextNormalizer.Strip | components/StudentPortal.tsx:20 | no `.?!,` is left; it is never longer; it holds only characters of the input; a string without those characters is unchanged |
| TextNormalizer.Normalize | components/StudentPortal.tsx:19-21 | the normal form contains none of `.?!,` |
| TextNormalizer.NormalizeShape | components/StudentPortal.tsx:19-21 | a normal form has no `.?!,`, no upper-case letter, and no white space except plain spaces |
| TextNormalizer.NormalizeNotIdempotent | components/StudentPortal.tsx:19-21 | stripping runs last, so "a ." normalises to "a " and a second pass gives "a": normalising twice differs from normalising once |
| TextNormalizer.StripLeavesDoubleSpace | components/StudentPortal.tsx:19-21 | "a . b" normalises to "a  b" with two spaces, which a second pass turns into "a b" |
| TextNormalizer.NormalizeIdempotentWithoutPunct | components/StudentPortal.tsx:19-21 | on an input without `.?!,`, normalising twice is the same as normalising once |
| TextNormalizer.NormalizeFixedPoint | components/StudentPortal.tsx:19-21 | a string that is lower-case, trimmed, collapsed and free of `.?!,` is its own normal form |
| TextNormalizer.InteriorRun | components/StudentPortal.tsx:20 | a white-space run of any length between a part that does not end in white space and a part that does not start with it becomes exactly one space, and each part collapses on its own |
| TextNormalizer.CollapseConcat | components/StudentPortal.tsx:20 | a prefix ending in a non-space character collapses independently of what follows it |
| TextNormalizer.NormalizeInnerRun | components/StudentPortal.tsx:19-21 | an inner white-space run of any length and kind normalises like a single space |
| TextNormalizer.LettersOfNormalize | components/StudentPortal.tsx:19-21 | normalising keeps the characters other than white space and `.?!,` of the lowered input, in order |
| TextNormalizer.NormalizeDetectsExtraWord | components/StudentPortal.tsx:19-21 | inserting a piece that holds a character other than white space and `.?!,` always changes the normal form |
| TextNormalizer.CollapseCollapsed | components/StudentPortal.tsx:20 | after collapsing, every white-space character is a plain space and no two spaces are adjacent |
| TextNormalizer.CollapseNonSpace | components/StudentPortal.tsx:20 | collapsing keeps every non-space character, in order |
| TextNormalizer.CollapseMembers | components/StudentPortal.tsx:20 | every character collapsing outputs is a space or comes from the input |
| TextNormalizer.CollapseIdentity | components/StudentPortal.tsx:20 | a string that is already collapsed is unchanged |
| TextNormalizer.CollapseLast | components/StudentPortal.tsx:20 | the last character after collapsing is a space when the input ends in white space, and otherwise is the input's last character |
| TextNormalizer.CollapsedOfTrimmed | components/StudentPortal.tsx:20 | collapsing a trimmed string gives a trimmed string |
| TextNormalizer.CollapseAppendNonSpace | components/StudentPortal.tsx:20 | appending a non-space character commutes with collapsing |
| TextNormalizer.TrimIgnoresSurroundingSpace | components/StudentPortal.tsx:20 | white space added at either end does not change the trimmed string |
| TextNormalizer.NormalizeIgnoresSurroundingSpace | components/StudentPortal.tsx:19-21 | white space added at either end does not change the normal form |
| TextNormalizer.NormalizeIgnoresFinalPunct | components/StudentPortal.tsx:19-21 | a final `.?!,` right after a non-space character does not change the normal form |
| TextNormalizer.LowerIdempotent | components/StudentPortal.tsx:20 | lowering twice is lowering once |
| TextNormalizer.LowerConcat | components/StudentPortal.tsx:20 | lowering distributes over concatenation |
| TextNormalizer.StripConcat | components/StudentPortal.tsx:20 | stripping distributes over concatenation |
| Grading.AnswerFor | components/StudentPortal.tsx:41 | the recorded answer, or `""` when the question has none |
| Grading.IsCorrect | components/StudentPortal.tsx:41-46 | a question with options is correct when the answer equals the key exactly; any other question when the answer and the key have the same normal form; a missing answer is `""` |
| Grading.CorrectCount | components/StudentPortal.tsx:39-47 | the correct count never exceeds the number of questions |
| Grading.CountCorrect | components/StudentPortal.tsx:39-47 | the counting loop returns exactly the number of questions the correctness rule accepts |
| Grading.ScoreOf | components/StudentPortal.tsx:49-50 | `NaN` exactly when there are no questions; otherwise between 0 and 100 tenths and the nearest tenth to 10·c/n, halves rounded up (2n·v ≤ 200c + n < 2n·(v+1)) |
| Grading.RoundingUnique | components/StudentPortal.tsx:49-50 | any tenths value meeting the rounding bracket is the score, so the bracket defines it |
| Grading.AllCorrectIff | components/StudentPortal.tsx:39-47 | the count equals the number of questions exactly when every question is correct |
| Grading.NoneCorrectIff | components/StudentPortal.tsx:39-47 | the count is zero exactly when no question is correct |
| Grading.ScoreExtremes | components/StudentPortal.tsx:49-50 | all correct scores 10.0 and none correct scores 0.0 |
| Grading.ScoreExamples | components/StudentPortal.tsx:49-50 | 1 of 2 scores 5.0, 1 of 3 scores 3.3, 2 of 3 scores 6.7 |
| Grading.ScoreMonotone | components/StudentPortal.tsx:49-50 | more correct answers never give a lower score |
| Grading.ReviewMarks | components/StudentPortal.tsx:102-106 | one mark per question, each true exactly when the correctness rule accepts that question |
| Grading.ReviewAgreesWithCount | components/StudentPortal.tsx:102-106 | the review screen marks as correct exactly as many questions as the score counted |
| Grading.OptionLabel | components/StudentPortal.tsx:223 | option i is labelled by the single character with code 65 + i |
| Grading.LabelsDistinct | components/StudentPortal.tsx:223 | two options have the same label only if they are the same option |
| Grading.ChosenOptionCorrectIff | components/StudentPortal.tsx:222-228 | after choosing option i, the question is correct exactly when the key is that option's label |
| Grading.MultipleChoiceExact | components/StudentPortal.tsx:42-43 | multiple choice compares exactly: with key "B", the answer "B" is correct, while "b" and no answer are not |
| Grading.FreeTextIgnoresCaseAndSurroundingSpace | components/StudentPortal.tsx:44-45 | a free-text answer that matches the key stays correct when lowered and surrounded by white space |
| Grading.FreeTextIgnoresFinalPunct | components/StudentPortal.tsx:44-45 | with a key ending in ".", the same text without it, or ending in another of `.?!,`, is correct |
| Grading.FreeTextInnerRun | components/StudentPortal.tsx:44-45 | a free-text answer with an inner white-space run of any length is graded exactly like the same answer with one space there |
| Grading.FreeTextSpacing | components/StudentPortal.tsx:44-45 | an answer matching the key with one space still matches with any inner run there and any white space around it |
| Grading.FreeTextSpacingExample | components/StudentPortal.tsx:44-45 | with the key "I go to school.", the answer "  I   go to school.  " is correct |
| Grading.FreeTextExtraWordWrong | components/StudentPortal.tsx:44-45 | an answer that is the key with an extra piece holding a letter inserted is wrong |
| Grading.FreeTextExtraWordExample | components/StudentPortal.tsx:44-45 | with the key "I go to school.", the answer "I go to the school." is wrong |
| Grading.TwoQuestionScenario | components/StudentPortal.tsx:39-50 | a correct four-option answer plus a correct free-text answer scores 10.0; with the free text wrong it scores 5.0 |
| Portal.StartCheck | components/StudentPortal.tsx:23-34 | "not open" exactly when there is no test or it is unpublished; "missing identity" exactly when it is open but the trimmed name or class is empty; no error exactly when both checks pass |
| Portal.UnpublishedRefusedWhateverTheIdentity | components/StudentPortal.tsx:24-27 | a missing or unpublished test is refused with the same message whatever name and class were typed |
| Portal.ResultOf | components/StudentPortal.tsx:52-60 | the result carries the typed name and class, the answers map, the given id and time, and maxScore 10; its score is `NaN` exactly when there are no questions, otherwise 0..100 tenths, and it is the score of the correct count |
| Portal.StudentPortal.constructor | components/StudentPortal.tsx:12-17 | empty identity and answers, not started, not finished, no result, no message |
| Portal.StudentPortal.EditName | components/StudentPortal.tsx:156 | stores the typed name and clears the message |
| Portal.StudentPortal.EditClass | components/StudentPortal.tsx:166 | stores the typed class and clears the message |
| Portal.StudentPortal.Start | components/StudentPortal.tsx:23-34 | the message becomes the gate's verdict; `started` becomes true only when the gate passes and is otherwise unchanged |
| Portal.StudentPortal.SelectOption | components/StudentPortal.tsx:222-228 | the question's answer becomes the option's letter; every other recorded answer is unchanged |
| Portal.StudentPortal.TypeAnswer | components/StudentPortal.tsx:247 | the question's answer becomes the typed text; the rest of the map is unchanged |
| Portal.StudentPortal.Submit | components/StudentPortal.tsx:36-66 | without a test nothing changes and nothing is submitted; otherwise it records and returns the result of the current name, class and answers, and marks the attempt finished |
| Portal.StudentPortal.BackToStart | components/StudentPortal.tsx:93 | not started, not finished, no result, no answers; the name and class stay |
| AppStore.PublicationOf | types.ts:34 | absent exactly when there is no test; published exactly when the flag is true |
| AppStore.Installed | App.tsx:82-86 | the installed test is a draft and equals the generated one in every other field |
| AppStore.Toggled | App.tsx:93 | the flag becomes present and negated; every other field is kept |
| AppStore.ToggleFlips | App.tsx:91-96 | toggling turns a draft into a published test and a published test into a draft |
| AppStore.ToggleTwice | App.tsx:91-96 | toggling twice restores the publication state; it restores the whole test when the flag was present, and otherwise leaves an explicit false |
| AppStore.HomeView | App.tsx:73-80 | students land on the portal; every other role lands on the teacher dashboard |
| AppStore.UrlDecision | App.tsx:26-47 | a non-empty `testData` installs the decoded test, or does nothing when it does not decode; only without it does `role=student` enter the portal; otherwise nothing happens |
| AppStore.BrokenLinkIgnoresRole | App.tsx:31-43 | a link that fails to decode is ignored even with `role=student` |
| AppStore.App.constructor | App.tsx:12-23 | loads the test and the results from storage, with none and empty when a key is missing; no role; the teacher dashboard; storage then holds the loaded values |
| AppStore.App.PersistActiveTest | App.tsx:63-67 | writes the test under "activeTest" when there is one, and otherwise leaves storage alone |
| AppStore.App.PersistResults | App.tsx:69-71 | always writes the results under "results" |
| AppStore.App.LoadFromUrl | App.tsx:26-47 | applies the URL decision: installs the test (stored) as student on the portal, or enters as student, or changes nothing; storage keeps matching memory |
| AppStore.App.OnStorageEvent | App.tsx:49-61 | storage takes the other tab's write (a clear, a removal or a new value); a present value under "results" or "activeTest" replaces that in-memory value and nothing else does; if memory and storage agreed before and the other tab wrote a value of the right shape, they agree after; if the other tab removed the test this tab holds, they no longer agree |
| AppStore.App.SelectRole | App.tsx:73-80 | sets the role and goes to that role's home view |
| AppStore.App.Navigate | App.tsx:132 | sets the current view |
| AppStore.App.Logout | App.tsx:106-109 | forgets the role |
| AppStore.App.TestGenerated | App.tsx:82-89 | callable in any state: the active test becomes the generated test as a draft, written under "activeTest" with the rest of storage kept; the view is the teacher dashboard; memory and storage that agreed before agree after |
| AppStore.App.TogglePublish | App.tsx:91-96 | callable in any state: without a test nothing changes; otherwise the test is replaced by its toggle and written under "activeTest"; memory and storage that agreed before agree after |
| AppStore.App.StudentSubmit | App.tsx:98-104 | callable in any state: the result is appended at the end, the old results are an unchanged prefix, and "results" holds the new sequence whatever storage held before; memory and storage that agreed before agree after |
| AppStore.App.DeleteTest | App.tsx:134-139 | callable in any state: when confirmed, the test is gone from memory and the "activeTest" key from storage, and the results stay; otherwise nothing changes; memory and storage that agreed before agree after |
| Statistics.InBucket | components/AnalyticsDashboard.tsx:18-21 | bar 0 holds scores up to 2, bar 1 above 2 up to 5, bar 2 above 5 up to 8, bar 3 above 8; `NaN` is in no bar |
| Statistics.Passes | components/AnalyticsDashboard.tsx:25 | a score passes at 5 or more; `NaN` does not pass |
| Statistics.BucketCount | components/AnalyticsDashboard.tsx:17-22 | a bar never counts more results than there are |
| Statistics.ScoreData | components/AnalyticsDashboard.tsx:17-22 | four bars, none taller than the number of results |
| Statistics.BucketsPartition | components/AnalyticsDashboard.tsx:18-21 | every numeric score lies in exactly one bucket, and `NaN` lies in none |
| Statistics.BucketsSum | components/AnalyticsDashboard.tsx:17-22 | the four bars add up to the number of results whose score is a number |
| Statistics.PassCount | components/AnalyticsDashboard.tsx:25 | at most the number of results |
| Statistics.PassCountFromBuckets | components/AnalyticsDashboard.tsx:19-25 | the pass count is the two upper bars plus the scores of exactly 5, which the "2-5" bar holds |
| Statistics.PassRate | components/AnalyticsDashboard.tsx:24-26 | 0 with no results; otherwise rate × count = 100 × passes; always within [0, 100] |
| Statistics.PieData | components/AnalyticsDashboard.tsx:28-31 | two slices in [0, 100] summing to 100; no fail slice when everyone passed, and no pass slice when nobody did |
| Statistics.Classify | components/AnalyticsDashboard.tsx:199 | excellent exactly from 8, good exactly from 6.5 below 8, average exactly from 5 below 6.5, weak exactly when the score does not pass (`NaN` included) |
| Statistics.ClassifyMonotone | components/AnalyticsDashboard.tsx:199 | a higher score never gets a lower rank |
| Statistics.ScoreColour | components/AnalyticsDashboard.tsx:184 | green exactly from 8, blue exactly from 5 below 8, red exactly when the score does not pass |
| Statistics.ColourAgreesWithRank | components/AnalyticsDashboard.tsx:184-199 | green is the excellent rank, red the weak one, blue the two ranks between |
| Statistics.Reversed | components/AnalyticsDashboard.tsx:179 | same length, entry i is entry n-1-i of the results |
| Statistics.ReversedTwice | components/AnalyticsDashboard.tsx:179 | reversing twice gives back the results |
| Menu.AllMenuItems | components/Sidebar.tsx:13-18 | four entries; the student portal is the only one tagged for students, and the other three are tagged for the teacher |
| Menu.Shown | components/Sidebar.tsx:21-24 | a teacher sees every entry; any other role sees only the entries tagged for students |
| Menu.Filter | components/Sidebar.tsx:21-24 | an entry is kept exactly when it is in the list and the role is teacher or the entry is tagged for students |
| Menu.MenuItems | components/Sidebar.tsx:21-24 | the menu holds exactly the entries of the fixed list that the role may see |
| Menu.FilterIsSubsequence | components/Sidebar.tsx:13-24 | the menu keeps the entries in their original order |
| Menu.TeacherSeesEverything | components/Sidebar.tsx:22 | the teacher's menu is the whole list, in order |
| Menu.TeacherKeepsAll | components/Sidebar.tsx:22 | the teacher's filter keeps any list of entries whole and in order |
| Menu.OthersSeeOnlyThePortal | components/Sidebar.tsx:23 | a student, or a visitor without a role, sees only the student portal |
| Menu.PortalAlwaysReachable | components/Sidebar.tsx:16-24 | every role's menu contains the student portal |

## Left out

- Lower: lowers only the ASCII letters A-Z. JavaScript's `toLowerCase` also lowers other alphabets and can change string length (for example "İ"); that is not modelled.
- White space is the ECMAScript white-space and line-terminator set, written out by code point; no other Unicode property is modelled.
- ScoreOf: exact integer arithmetic replaces floating point. `Math.round((c/n)*10*10)/10` on doubles can differ from the exact half-up rounding when 100·c/n sits within rounding error of a half.
- `JSON.stringify`/`JSON.parse` are treated as the identity, so a stored value reads back as written. Two consequences are not modelled. A `NaN` score is written as `null`, and `null` then compares as 0 in the statistics. A stored value of the wrong shape is only handled as far as `OnStorageEvent`'s agreement clause requires `WellShaped`.
- Base64 and percent decoding of the `testData` parameter are an abstract partial function. Only decoding appears in the app, so no encode/decode round trip is stated.
- Concurrency: storage events are whole, sequential method calls. The lost-update race between two tabs that append results at once is not modelled.
- The asynchronous AI analysis on the statistics screen (`components/AnalyticsDashboard.tsx:35-51`) and the AI service in `services/geminiService.ts` are foreign network calls and are not part of this model.
- The test generator form, the teacher dashboard's presentation, the role selector's passphrase screen and the curriculum constants are UI around the modelled handlers and are not part of this model.
- `history.replaceState`, `window.scrollTo`, the page reload caused by clearing `window.location.search` on logout, and `confirm` are browser effects. The confirmation is a `bool` parameter of `DeleteTest`.
- Result ids (`Math.random`) and timestamps (`new Date()`) are parameters of `Submit`.
- OptionLabel, SelectOption: require 65 + index below 0xD800, the surrogate range where `String.fromCharCode` no longer gives a Dafny `char`. Tests have four options.
- Which view renders for which role (the JSX conditions in `App.tsx`) is not modelled beyond `currentView` and the menu filter.
