# AiMerlion résumé extraction, modelled in Dafny

AiMerlion reads candidate résumés (PDF and Word files, in Japanese and in
English) and emits one row of fields per candidate: ID, name, e-mail,
phone, date of birth, skills, work history and education. Regular
expressions do the extraction. A locally served language model fills or
overrides fields. A set of normalisers formats phones and dates, and
repairers fix what the model returns. An evaluator scores the fields
against labelled ground truth.

This project models the logic that sits between "some text came back"
and "a row of fields is emitted":

- the phone, date and name normalisers and validators (`utils.py`,
  `main.py`, `ai_validator.py` and the copies in the older extractors);
- the pattern-extractor pieces of `ai_extractor.py`: skills filtering,
  capping and classification, experience chunking between anchors, and
  the education fallback;
- the model-response repairer (`_fix_malformed_lists`,
  `_validate_deep_extraction`) and the JSON parse ladders of every
  extractor;
- the reconciliation and merge rules of `main._extract_data_from_text`,
  `_set_extraction_status`, and the four `validate_and_enhance` variants.
  Each variant is modelled on its own, since they disagree on who wins;
- the scoring in `evaluator.py` and `prompt_optimizer.py`;
- the text-quality gates and fallback order of `document_parser.py` and
  `marker_extractor.py`;
- the language and format report of `check_resumes.py`.

The modules follow the source files:

| Dafny file | source file |
|---|---|
| `text.dfy` (`Text`) | helpers shared by all: `str.strip`, `str.split`, `.lower()`, `find`, digit filtering |
| `json.dfy` (`Json`) | the JSON value model (null, bool, number, string, list, object) |
| `calendar.dfy` (`Calendar`) | `datetime` dates, `strptime` for the formats used, and the date regexes |
| `utils.dfy` (`Utils`) | `utils.py` |
| `main_extractor.dfy` (`MainExtractor`) | `main.py` |
| `ai_extractor.dfy` (`AiExtractor`) | `ai_extractor.py` |
| `ai_extractor_old.dfy` (`AiExtractorOld`) | `ai_extractor_old.py` |
| `ai_extractor_old_v2.dfy` (`AiExtractorOldV2`) | `ai_extractor_old_v2.py` |
| `ai_extractor_finetuned.dfy` (`AiExtractorFinetuned`) | `ai_extractor_finetuned.py` |
| `ai_validator.dfy` (`AiValidator`) | `ai_validator.py` |
| `evaluator.dfy` (`Evaluator`) | `evaluator.py` |
| `prompt_optimizer.dfy` (`PromptOptimizer`) | `prompt_optimizer.py` |
| `document_parser.dfy` (`DocumentParser`) | `document_parser.py` |
| `marker_extractor.dfy` (`MarkerExtractor`) | `marker_extractor.py` |
| `check_resumes.dfy` (`CheckResumes`) | `check_resumes.py` |

Everything the program gets from outside is a parameter of the model:

- **Model replies.** Each reply is the text the model returned, or `None` where the call failed.
- **`json.loads`.** It is a function `string -> Option<Dict>`.
- **Extracted text.** The texts that pdfplumber, OCR, Marker and python-docx produced are inputs.
- **Regex matches.** The match lists of the big regexes (experience anchors, date-of-birth matches, emergency-contact hits) are inputs.
- **Similarity.** `fuzz.ratio` is a similarity function.
- **The clock.** Today's date is an input.

A Python exception is modelled as `Outcome.Raised`. A dictionary is a
`map<string, Value>`. Where the source updates a dictionary or a list in a
loop, the model is a `method` with that loop. The method is proved equal
to a specification function, and lemmas state the function's properties.
`check_resumes.py` is modelled this way, and so is the result record that
`main.py` mutates (the class `MainExtractor.ResultRow`).

## Model

| member | source | states |
|---|---|---|
| Utils.StandardizePhoneNumberSound | utils.py:112-145 | None exactly for empty input or fewer than 7 digits; otherwise the result keeps the input's digits in order and contains only digits, '+', '-', '(', ')' and spaces |
| Utils.UsFormat | utils.py:127-128 | ten digits become "(ddd) ddd-dddd", with the same digits |
| Utils.UsCountryFormat | utils.py:131-132 | eleven digits starting with 1 become "+1 (ddd) ddd-dddd", with the same digits |
| Utils.UkFormat | utils.py:135-138 | a "44" number becomes "+44 xxxx xxx rest", with the same digits |
| Utils.Prefix44 | utils.py:135 | a cleaned number starting with "+44" or "44" has digits starting with "44" |
| Utils.CleanPhoneFacts | utils.py:121-124 | cleaning keeps every digit, leaves only phone characters and is idempotent |
| Utils.StandardizePhoneNumberIdempotent | utils.py:112-145 | standardising a standardised number changes nothing |
| Utils.FixedLayoutIdempotent | utils.py:127-138 | each fixed layout (US, +1, UK) is a fixed point of standardisation |
| Utils.StandardizeDate | utils.py:147-211 | empty gives None; an ISO-shaped string is returned unchanged; any other result is an ISO date whose age is in [18, 70] |
| Utils.StandardizeDateMonthFirst | utils.py:162-183 | "05/23/1990" gives "1990-05-23" (read by %m/%d/%Y) whenever that date is in the age window |
| Utils.StandardizeDateDayFirst | utils.py:162-183 | "23/05/1990" gives "1990-05-23": %m/%d/%Y rejects month 23 and %d/%m/%Y reads it |
| Utils.StandardizeDateAmbiguousIsMonthFirst | utils.py:162-183 | "03/04/1990" is read month first, as 4 March 1990, because %m/%d/%Y comes before %d/%m/%Y |
| Utils.StandardizeViaFormat | utils.py:152-185 | a non-empty, non-ISO text that the format loop reads gives exactly the loop's result |
| Utils.StandardizeDateIdempotent | utils.py:158-159 | standardising a standardised date changes nothing |
| Utils.StandardizeDateSkipsAgeCheckOnIso | utils.py:158-159 | "2030-01-01" is returned as it is, without the age check, as is an ISO date followed by a newline |
| Utils.FirstAdultFormat | utils.py:176-185 | a date found by the format loop is ISO with an age in [18, 70] |
| Utils.FirstAdultFormatIsFirst | utils.py:176-185 | when format n is the first under which the text parses to a date in the age window, the loop returns that parse, printed YYYY-MM-DD |
| Utils.FirstAdultFormatNone | utils.py:176-185 | the loop finds nothing iff no format parses the text to a date in the age window |
| Utils.FirstAdultIsFirst | utils.py:176-185 | over a sequence of parse results, the first in-window one from position k is the one returned |
| Utils.FirstAdultNone | utils.py:176-185 | over a sequence of parse results, nothing is returned iff none from position k is in the window |
| Utils.DateFormatsRoundTrip | utils.py:162-178 | each of the eleven formats reads back a valid date that it wrote |
| Utils.YearLedFails | utils.py:163-164 | a year-first format fails on a text whose first four characters are not all digits |
| Utils.FormatLoopAt | utils.py:165-183 | a slashed date written by %m/%d/%Y, or by %d/%m/%Y when %m/%d/%Y fails on it, is returned by the loop as that date |
| Utils.AdultDate | utils.py:197-209 | the regex fallback returns a date iff its three numbers form a valid date with an age in [18, 70]; the date returned is that date as YYYY-MM-DD |
| Utils.ExtractContextHint | utils.py:394-410 | empty context, empty value or a value not found (ignoring case) gives ""; the hint is at most 40 characters longer than the value |
| Utils.ContextHintInWindow | utils.py:400-410 | the hint is a stretch of the text at most 20 characters before the first case-insensitive occurrence and at most 20 after its end; only whitespace separates it from the edges of that window |
| Utils.ContextHintContainsValue | utils.py:400-410 | the hint contains the occurrence it was cut around |
| Utils.GetPatternKey | utils.py:722-736 | EMAIL_LIKE iff '@' and '.' occur; PHONE_LIKE iff not that and the first line has two digit groups; DATE_LIKE iff neither and the first line has a year and two numbers; MULTI_WORD iff none of these and two or more words; SINGLE_WORD iff none of these and fewer than two words |
| Utils.HasTwoDigitGroups | utils.py:729-730 | the hand-written recogniser agrees with its regex's meaning |
| Utils.HasYearThenTwoNumbers | utils.py:731-732 | the hand-written recogniser agrees with its regex's meaning |
| Calendar.FormatIsoRoundTrip | utils.py:183 | a valid date printed as YYYY-MM-DD is 10 characters, ISO-shaped, and reads back as the same date |
| Calendar.Strptime | utils.py:178 | a date parsed by strptime is a valid calendar date |
| Calendar.StrptimeRoundTrip | utils.py:178 | strptime reads back the date a readable format wrote: every valid date, every format that sets year, month and day and never puts spaces before a space-skipping directive |
| Calendar.MatchWritten | utils.py:178 | matching a format against the text it wrote for a date succeeds, consumes the whole text and sets that date's fields |
| Calendar.FirstAlternative | utils.py:178 | the first way a directive can match the text it wrote is the piece that reads the date's own field |
| Calendar.NameFirst | utils.py:167 | %B's first match on a written month name is that month, even where an earlier month shares its first letters |
| Calendar.AbbrFirst | utils.py:168 | %b's first match on a written abbreviation is that month |
| Calendar.MonthTitleFacts | utils.py:167-170 | a written month name is capitalised, lower-cases to the month's name, and its first three letters are the abbreviation |
| Calendar.YmdSearch | evaluator.py:257-264 | re.search for a year-month-day group: a match at some position k with no match at any earlier position, or None iff no position matches |
| Calendar.MdySearch | evaluator.py:257-264 | re.search for a month-day-year group: a match at some position k with no match at any earlier position, or None iff no position matches |
| MainExtractor.StandardizePhoneFormatJapanese | main.py:492-505 | in Japanese mode, 11 digits starting with 0 give 3-4-4; 10 digits with second digit 3-9 give 2-4-4, otherwise 3-3-4; the digits are kept |
| MainExtractor.StandardizePhoneFormatGrouped | main.py:512-521 | outside Japanese mode, 10 or 11 digits are grouped with two dashes and keep their digits |
| MainExtractor.StandardizePhoneFormatInternational | main.py:508-509 | outside Japanese mode, a number whose digits start with '81' and run to eight or more comes out as 81-xx-xxxx-rest: three characters longer, dashes at positions 2, 5 and 10, and exactly the number's digits |
| MainExtractor.InternationalLayoutDigits | main.py:509 | the f-string layout `81-{d[2:4]}-{d[4:8]}-{d[8:]}` of an all-digit '81' string of eight or more digits adds only the three dashes |
| MainExtractor.Dash3Digits | main.py:497-521 | inserting two dashes keeps the digits |
| MainExtractor.IsValidJapanesePhone | main.py:1156-1164 | valid only for 10-11 digits starting with 0; a 0[5789]0 prefix needs exactly 11, any other exactly 10 |
| MainExtractor.IsValidInternationalPhone | main.py:1196-1202 | valid iff 7-15 digits that are not all the same digit |
| MainExtractor.IsSequential | main.py:1204-1208 | fewer than 6 characters is not sequential; six digits are sequential iff they step by +1 or all by -1 |
| MainExtractor.WindowBounds | main.py:259-264 | the window around a position is clamped to [max(0, p-r), min(len, p+r)) |
| MainExtractor.Window | main.py:259-264 | the window is that slice of the text and at most 2r long |
| MainExtractor.FindContactArea | main.py:361-381 | None iff neither e-mail nor phone was found; otherwise the 500-character window around the e-mail, or else around the phone |
| MainExtractor.SearchAreas | main.py:257-266 | the whole text is always searched; the 300-character window around the e-mail comes first iff the e-mail occurs in the text |
| MainExtractor.FirstPhone | main.py:284-302 | the first candidate that passes validation, standardised; None iff none passes |
| MainExtractor.ExtractPhoneEnglishSound | main.py:251-302 | a returned phone has 10-15 digits, not all the same, and only phone characters |
| MainExtractor.MakeTrans | main.py:486 | str.maketrans raises iff its two strings differ in length; otherwise every character of the first is a key |
| MainExtractor.DigitTables | main.py:486 | the digit table as main.py stores it (here and again at main.py:587) raises; the intended one is built |
| MainExtractor.PhoneFormatAsStoredRaises | main.py:480-487 | as stored, formatting any phone number raises ValueError |
| MainExtractor.DobAsStoredLosesDate | main.py:583-654 | a "DOB: 1990/01/15" match gives "1990-01-15" in the intended code and None as stored |
| MainExtractor.EraYear | main.py:615-631 | Reiwa adds 2018, Heisei 1988, Showa 1925, and no era name 1988 |
| MainExtractor.ExtractDobFromText | main.py:583-654 | a result is a YYYY-MM-DD text of a date whose year lies in [min_year, max_year] |
| MainExtractor.DobTextRoundTrip | main.py:644-648 | the zero-padded text is 10 characters and reads back as the same year, month and day |
| MainExtractor.IsValidEnglishName | main.py:754-786 | valid iff 3-50 characters, no blacklisted word, only letters, spaces, '-', apostrophe and '.', every word of two or more letters capitalised except Jr, Sr, II, III and IV, and not all capitals beyond 5 characters |
| MainExtractor.IsValidNameStrict | main.py:847-882 | valid iff 2-50 characters, not blacklisted, not all capitals beyond 4, no e-mail or URL fragment, and a Latin name has a capital and is not all lower case beyond 3 |
| MainExtractor.StrictNameHasCapital | main.py:847-882 | a strictly valid Latin name has a capital letter and no '@' |
| MainExtractor.CleanNameNoBrackets | main.py:884-885 | a cleaned name contains no bracketed part |
| MainExtractor.CleanNameIdempotent | main.py:884-885 | cleaning a cleaned name changes nothing |
| MainExtractor.NameFromFolder | main.py:989-1023 | a name taken from a folder is non-empty and has no surrounding space |
| MainExtractor.NameFromFolderFamilyFirst | main.py:996-1013 | "108_ATWAL Prateek" style folders give the given name first, then the family name |
| MainExtractor.MissingOf | main.py:963-964 | a field is missing iff it is required and empty; no field is listed twice |
| MainExtractor.AiStart | main.py:952-960 | the merge starts from the model's result only when the call returned a non-empty dict; a raised call is swallowed |
| MainExtractor.StandardizeDobValue | main.py:976-985 | an empty date of birth becomes None; a string goes through standardize_date; any other truthy value raises |
| MainExtractor.FormatFields | main.py:976-985 | the output has exactly the eight fixed keys; it raises iff the date of birth is a truthy non-string |
| MainExtractor.ExtractDataFromText | main.py:941-987 | the AI-assisted flag holds iff the model returned a non-empty dict; the result is the formatted merge of model and regex values |
| MainExtractor.FillMissingPicks | main.py:966-973 | after filling, every required field holds the model's value if present, else the regex value |
| MainExtractor.MergePrecedence | main.py:963-973 | a present model value wins; otherwise a present regex value fills the gap; otherwise the field stays empty |
| MainExtractor.CollectMissing | main.py:963-964 | the loop collects exactly the missing required fields |
| MainExtractor.FillMissing | main.py:966-973 | the loop fills exactly those fields from the regex results |
| MainExtractor.FolderId | main.py:1065-1068 | an ID exists iff the folder name starts with a digit |
| MainExtractor.FolderIdOfNumber | main.py:1065-1068 | a folder "<n>_..." has ID n |
| MainExtractor.ZeroIdFails | main.py:1066-1115 | a folder "000_..." has ID 0, and its status is "Failed" whatever else was found |
| MainExtractor.StatusFor | main.py:1114-1132 | "Failed" iff the name is missing or the ID is missing or 0; otherwise "Complete" iff all of e-mail, phone and date are present, "Partial" iff none is, "Success" otherwise |
| MainExtractor.EmergencyKeepsPresent | main.py:1134-1148 | emergency extraction never overwrites an existing e-mail or phone |
| MainExtractor.EmergencyEmailLower | main.py:1143-1145 | an e-mail filled by emergency extraction has no capital letter |
| MainExtractor.ResultRow.constructor | main.py:1047-1060 | a new row holds the given fields, with empty status and notes |
| MainExtractor.ResultRow.EmergencyContactExtraction | main.py:1134-1148 | e-mail and phone become the emergency result; existing values and every other field are unchanged |
| MainExtractor.ResultRow.SetExtractionStatus | main.py:1114-1132 | the status is set from the five fields; the notes grow by the status notes and, when no contact was found, the note and emergency extraction |
| AiExtractor.ExtractSkillsRegex | ai_extractor.py:131-223 | the hard and soft skill lists are the kept skills of the first 50 pieces, classified in order and capped at 30 and 20 |
| AiExtractor.Classified | ai_extractor.py:199-216 | a skill is among the hard ones iff it was kept and is classified hard, and among the soft ones iff kept and not hard |
| AiExtractor.SkillsPartition | ai_extractor.py:199-216 | hard and soft together are a permutation of the kept skills |
| AiExtractor.ExtractedSkillsValid | ai_extractor.py:165-178 | every returned skill is 3-80 characters, not all digits and not a section-header word |
| AiExtractor.SkillsSection | ai_extractor.py:139-154 | when "skill" occurs (ignoring case), the section starts after the first occurrence, its optional "s" and the whitespace and colon that follow, and ends at the first following stop word (EXPERIENCE, EMPLOYMENT, WORK, EDUCATION, PROFESSIONAL) or at the end of the text; otherwise the same after CORE COMPETENCIES with its four stop words, and "" when neither header occurs |
| AiExtractor.ExtractExperienceRegex | ai_extractor.py:225-339 | the jobs are those built from the experience section's anchors, in order |
| AiExtractor.JobsFromAnchors | ai_extractor.py:274-335 | the loop builds exactly one job per anchor, in order |
| AiExtractor.JobAtShape | ai_extractor.py:277-335 | company and role are at most 100 characters; the company is the anchor's group; missing role or dates give the "not specified" defaults; the description is 1-400 characters |
| AiExtractor.ChunksTile | ai_extractor.py:277-284 | job i's chunk runs from anchor i to anchor i+1, so the chunks tile the section from the first anchor to the end |
| AiExtractor.ExtractEducationRegex | ai_extractor.py:341-410 | the entries are those built from the education section's anchors, in order |
| AiExtractor.EducationAtShape | ai_extractor.py:380-405 | institution and degree are at most 150 characters; a missing degree gives the default; dates are the default or start with a digit |
| AiExtractor.EducationFallback | ai_extractor.py:363-374 | with no education section, the last 2000 characters are searched only if some institution occurs, and nothing otherwise |
| AiExtractor.FixMalformedLists | ai_extractor.py:562-696 | the in-place repair computes exactly the repaired dictionary |
| AiExtractor.FixedDataShape | ai_extractor.py:562-696 | no key is added or removed; other fields are untouched; skill fields become lists of clean strings; experience becomes job records and education becomes education records; a string education becomes one sentinel entry |
| AiExtractor.FixedSkillFieldFacts | ai_extractor.py:572-604 | a skill field given as text or list becomes clean string items; other keys are untouched |
| AiExtractor.FixedExperienceFacts | ai_extractor.py:608-657 | working_experience given as text or list becomes records with exactly company, role, dates and description |
| AiExtractor.FixedEducationFacts | ai_extractor.py:677-694 | an education list becomes records with the education keys; a string becomes one sentinel entry |
| AiExtractor.SkillTextItemsClean | ai_extractor.py:577-590 | a skill cut from text has no bullet, hyphen or asterisk and is 3-99 characters |
| AiExtractor.ListItems | ai_extractor.py:595-604 | the list branch keeps only string items that pass the filter, never more than there are strings |
| AiExtractor.JobsFromDumpNonEmpty | ai_extractor.py:612-657 | text experience always yields at least one job; the sentinel job comes exactly when no section yields a job (or the only job equals the sentinel), and its description is at most 500 characters |
| AiExtractor.CleanSkillText | ai_extractor.py:577-590 | the loop computes exactly the cleaned skill items |
| AiExtractor.CleanSkillList | ai_extractor.py:595-604 | the loop computes exactly the kept list items |
| AiExtractor.JobsFromSections | ai_extractor.py:618-648 | the loop computes exactly the jobs of the sections |
| AiExtractor.ValidateJobs | ai_extractor.py:659-673 | the loop computes exactly the validated job records |
| AiExtractor.ValidateEducations | ai_extractor.py:685-694 | the loop computes exactly the validated education records |
| AiExtractor.RepairSkills | ai_extractor.py:572-604 | the loop over skill fields computes the repaired dictionary |
| AiExtractor.RepairExperience | ai_extractor.py:608-675 | the experience repair computes the repaired dictionary |
| AiExtractor.RepairEducation | ai_extractor.py:677-694 | the education repair computes the repaired dictionary |
| AiExtractor.ValidateDeepExtraction | ai_extractor.py:698-741 | it raises iff a job description has no length; otherwise it returns the repaired data whatever issues it logged |
| AiExtractor.BraceSpan | ai_extractor.py:545-548 | the span runs from the first '{' to the last '}'; None iff no '{' precedes a '}' |
| AiExtractor.ParseAiResponseKeys | ai_extractor.py:533-560 | repair after parsing keeps exactly the parsed keys |
| AiExtractor.FencedReplyParsesAsBare | ai_extractor.py:537-542 | a reply in a json code fence parses as its body would |
| AiExtractor.PureManualExtraction | ai_extractor.py:104-129 | the manual pass combines the skills, experience and education extractors |
| AiExtractor.ManualDeep | ai_extractor.py:220-223 | the manual pass has at most 30 hard and 20 soft skills |
| AiExtractor.ManualDeepShape | ai_extractor.py:104-129 | every manual skill is a kept skill string; every job is a record with the four job keys and every education entry one with the three education keys |
| AiExtractor.EnhanceSkillsWithAi | ai_extractor.py:432-458 | experience and education are untouched; with no skills nothing changes; otherwise the reply's hard and soft lists replace them, capped at 30 and 20, or nothing changes |
| AiExtractor.ExtractDeepFields | ai_extractor.py:82-102 | the method computes the deep fields |
| AiExtractor.DeepFieldsFacts | ai_extractor.py:82-102 | experience and education come from the manual pass; the model is consulted only when available and the skills need it (fewer than 5, or a category empty); the skill caps hold |
| AiExtractor.HeaderMergedAt | ai_extractor.py:754-758 | a non-empty model header value overrides the regex value and is tagged AI_Header; otherwise value and tag are kept |
| AiExtractor.HeaderMergedEmpty | ai_extractor.py:754-758 | merging an empty header changes nothing |
| AiExtractor.MergeHeader | ai_extractor.py:754-758 | the loop computes the merged header |
| AiExtractor.ValidateAndEnhance | ai_extractor.py:743-773 | the result is the enhanced merge of regex results, parsed header and deep fields |
| AiExtractor.EnhancedDeepFacts | ai_extractor.py:743-773 | unavailable returns the regex results; otherwise skills = hard ++ soft, the experience and education lists come from the deep pass, tagged AI_Deep, with ai_enhanced set |
| AiExtractor.EnhancedHeaderFacts | ai_extractor.py:754-758 | each header field takes the model's non-empty value, else keeps the regex value |
| AiExtractor.PostProcessResults | ai_extractor.py:775-798 | the method computes the post-processed dictionary |
| AiExtractor.PostProcessedFacts | ai_extractor.py:775-798 | ai_enhanced is set; the four list fields are lists and lists are kept; other fields are untouched; a phone becomes None iff it has fewer than 7 digits and otherwise keeps its digits |
| AiExtractor.PhoneFixed | ai_extractor.py:782-786 | a string phone goes through standardize_phone_number; a non-list, non-string value is kept |
| AiExtractor.CleanNameAi | ai_extractor.py:800-805 | a non-string name gives ""; the result is no longer than the name |
| AiExtractor.DropTitleRemoves | ai_extractor.py:803 | a leading Mr./Ms./Mrs./Dr./Prof./Eng. title, in any case, and the space after it are removed |
| AiExtractor.DropDegreeRemoves | ai_extractor.py:804 | a trailing ", PhD"-style degree is removed |
| AiExtractorOld.CleanNameOld | ai_extractor_old.py:226-232 | cleaning never lengthens the name |
| AiExtractorOld.CleanNameOldDropsHonorifics | ai_extractor_old.py:226-232 | a Mr./Ms./Mrs./Dr./様/さん/氏 prefix and a 様/さん/氏 suffix are removed, leaving the name |
| AiExtractorOld.StandardizePhoneOldKeepsDigits | ai_extractor_old.py:234-253 | the digits are kept; 11 digits from 0 give 3-4-4 and 10 digits from 0 give 2-4-4 |
| AiExtractorOld.StandardizeDateOld | ai_extractor_old.py:255-276 | an ISO-shaped date is returned unchanged, with no age check |
| AiExtractorOld.KanjiDateRebuilt | ai_extractor_old.py:263-272 | a 年月日 date becomes zero-padded YYYY-MM-DD |
| AiExtractorOld.SlashDateReordered | ai_extractor_old.py:264-272 | M/D/YYYY becomes YYYY-MM-DD |
| AiExtractorOld.SlashDateNoYearFirst | ai_extractor_old.py:258-268 | a M/D/YYYY date is neither ISO nor a year-first date, so it reaches the reordering branch |
| AiExtractorOld.FlatBraceSearch | ai_extractor_old.py:159 | a brace-delimited flat object with no nested braces matched at some position k with no match at any earlier position, or None iff there is none |
| AiExtractorOld.FieldSearch | ai_extractor_old.py:179-182 | a non-empty group of a field's pattern matched at some position k with no match at any earlier position, or None iff there is none |
| AiExtractorOld.FieldsFoundAt | ai_extractor_old.py:166-186 | a field is in the stage-3 result iff its pattern matched a non-'null' value, and then holds that value |
| AiExtractorOld.FieldsFoundOnly | ai_extractor_old.py:166-186 | the stage-3 result has only listed fields, each a non-empty string other than 'null' |
| AiExtractorOld.ParseLadderStages | ai_extractor_old.py:146-186 | the whole reply is tried first, then a flat object, then the field patterns |
| AiExtractorOld.PostProcessOldFacts | ai_extractor_old.py:188-224 | it raises iff a name, e-mail, phone or date field is a truthy non-string; name falls back from name to name_japanese to name_english; only known keys remain |
| AiExtractorOld.AllFieldsOldFacts | ai_extractor_old.py:44-144 | unavailable gives {}; only known keys remain; a kept e-mail contains '@' |
| AiExtractorOld.FillFields | ai_extractor_old.py:292-297 | the loop computes the filled dictionary |
| AiExtractorOld.FilledAt | ai_extractor_old.py:292-297 | a present regex value wins, tagged Regex; otherwise a present model value fills, tagged AI; otherwise the field is unchanged |
| AiExtractorOld.FilledUntouched | ai_extractor_old.py:292-297 | keys other than the merged fields and their tags are unchanged |
| AiExtractorOld.ValidateAndEnhanceOld | ai_extractor_old.py:278-306 | the result is the enhanced merge of regex results and the model's fields |
| AiExtractorOld.EnhancedOldFacts | ai_extractor_old.py:278-306 | unavailable returns the regex results; otherwise it raises iff the name check does, sets ai_enhanced, and the regex value wins over the model's |
| AiExtractorOldV2.PostProcessV2 | ai_extractor_old_v2.py:173-265 | the method computes the post-processed result |
| AiExtractorOldV2.PostProcessedV2Facts | ai_extractor_old_v2.py:173-265 | it raises iff name or name_japanese is a truthy non-string; name is present iff some name field is; skills and experience are present iff given, as cleaned string lists |
| AiExtractorOldV2.PostProcessedV2Values | ai_extractor_old_v2.py:194-217 | a kept e-mail contains '@'; a string phone is standardised; a string date becomes None or ISO |
| AiExtractorOldV2.FillHeader | ai_extractor_old_v2.py:182-217 | the loop fills exactly the header entries |
| AiExtractorOldV2.FillLists | ai_extractor_old_v2.py:219-263 | the loop fills exactly the list entries |
| AiExtractorOldV2.ListFieldFacts | ai_extractor_old_v2.py:219-263 | list items come out stripped; a list of stripped non-empty strings is kept as it is |
| AiExtractorOldV2.FlattenStrings | ai_extractor_old_v2.py:239-246 | the loop flattens exactly the string items |
| AiExtractorOldV2.FlattenedStrings | ai_extractor_old_v2.py:239-246 | a list of stripped strings flattens to its own texts |
| AiExtractorOldV2.CommaItemsJoin | ai_extractor_old_v2.py:421-428 | splitting clean comma-separated text and joining it again gives the text back |
| AiExtractorOldV2.AllFieldsV2Facts | ai_extractor_old_v2.py:47-125 | unavailable gives {}; only known keys remain; a kept e-mail contains '@' |
| AiExtractorOldV2.CoercedFieldsAt | ai_extractor_old_v2.py:421-428 | each deep field is coerced; other keys are unchanged |
| AiExtractorOldV2.CoerceDeepLists | ai_extractor_old_v2.py:421-428 | the loop coerces exactly the deep fields |
| AiExtractorOldV2.DeepFieldsV2Facts | ai_extractor_old_v2.py:366-433 | unavailable gives {}; None iff the reply did not parse; a string field is split on commas, None becomes [], anything else is kept |
| AiExtractorOldV2.DeepItemsQuotesOnly | ai_extractor_old_v2.py:426 | a field holding only two quotes gives one empty item |
| AiExtractorOldV2.MergeDeep | ai_extractor_old_v2.py:346-354 | the loop computes the deep merge |
| AiExtractorOldV2.DeepMergedAt | ai_extractor_old_v2.py:346-354 | a non-empty model value replaces, tagged AI_Deep; else a non-empty regex list is kept, tagged Regex; else the field becomes [] |
| AiExtractorOldV2.DeepMergedUntouched | ai_extractor_old_v2.py:346-354 | keys other than the deep fields and their tags are unchanged |
| AiExtractorOldV2.MergedV2Name | ai_extractor_old_v2.py:337-342 | the regex name wins, the model's fills a gap, and otherwise the name stays empty |
| AiExtractorOldV2.EnhancedV2AsWrittenRaises | ai_extractor_old_v2.py:356-361 | as written, the merge raises NameError iff a regex or model name is present |
| AiExtractorOldV2.EnhancedV2AsWrittenExample | ai_extractor_old_v2.py:356-361 | a regex name "Taro" makes the merge raise NameError |
| AiExtractorOldV2.EnhancedV2Returns | ai_extractor_old_v2.py:319-364 | corrected: unavailable returns the regex results; it raises only when the deep reply failed or the name check raises; string names never raise |
| AiExtractorOldV2.EnhancedV2Value | ai_extractor_old_v2.py:319-364 | corrected: the result is the merge, with ai_enhanced set |
| AiExtractorOldV2.EnhancedV2HeaderFacts | ai_extractor_old_v2.py:337-342 | the regex value wins, tagged Regex; the model fills gaps, tagged AI |
| AiExtractorOldV2.EnhancedV2DeepFacts | ai_extractor_old_v2.py:346-354 | deep fields follow the AI_Deep, then Regex list, then [] order |
| AiExtractorOldV2.ValidateAndEnhanceV2 | ai_extractor_old_v2.py:319-364 | the result is the corrected merge of regex, header and deep results |
| AiExtractorFinetuned.FourFields | ai_extractor_finetuned.py:166-171 | the result has exactly the four keys, with the parsed values or None |
| AiExtractorFinetuned.ParseJsonResponseShape | ai_extractor_finetuned.py:152-178 | the result is {} or has exactly the four keys; four keys iff a flat object was found and loaded |
| AiExtractorFinetuned.BareObjectReply | ai_extractor_finetuned.py:152-178 | a reply that is one flat object parses to its four fields, or to {} when it does not load |
| AiExtractorFinetuned.FlatSearchWhole | ai_extractor_finetuned.py:160-162 | a text that is one flat object is found whole |
| AiExtractorFinetuned.AllFieldsFinetuned | ai_extractor_finetuned.py:76-77 | unavailable gives {}; otherwise {} or the four keys |
| AiExtractorFinetuned.ValidateAndEnhanceFinetuned | ai_extractor_finetuned.py:180-196 | the result is the merge of regex results and the model's fields |
| AiExtractorFinetuned.EnhancedFinetunedFacts | ai_extractor_finetuned.py:180-196 | unavailable returns the regex results; otherwise ai_enhanced is set, the regex value wins, tagged Regex, and the model fills gaps, tagged AI |
| AiValidator.ValidatePhone | ai_validator.py:256-283 | valid iff 10-15 digits; the digits are kept; JP 11 digits from 0 give 3-4-4; JP 10 digits give 2-4-4 when the second digit is 3-9, else 3-3-4; otherwise the input is returned |
| AiValidator.ValidatePhoneIdempotent | ai_validator.py:256-283 | validating the formatted phone gives the same verdict and format |
| AiValidator.ValidateEmailIff | ai_validator.py:249-254 | valid iff the address splits into local part, '@', domain and a dotted top-level domain of 2+ letters |
| AiValidator.ValidateEmailSound | ai_validator.py:249-254 | a valid address has such a split |
| AiValidator.ValidateEmailComplete | ai_validator.py:249-254 | an address with such a split is valid |
| AiValidator.AiName | ai_validator.py:189-197 | an accepted name is 2-50 characters, without @/\|{}[] and without surrounding quotes |
| AiValidator.AiNameKeepsName | ai_validator.py:189-197 | an unquoted, unlabelled valid name is returned as it is |
| AiValidator.PhoneRunSearch | ai_validator.py:201 | a run of phone characters matched at some position k with no match at any earlier position, or None iff no position matches |
| AiValidator.PhoneRunContained | ai_validator.py:199-204 | the phone run found lies in the reply |
| AiValidator.ExtractFromMessyText | ai_validator.py:144-217 | None when unavailable, for an unknown field or a failed call; a name is name-like; a phone is 10-20 phone characters from the reply; a date is dashed |
| AiValidator.ExtractDobKeepsIsoDate | ai_validator.py:206-211 | a reply that is an ISO date gives that date |
| AiValidator.DobVerdict | ai_validator.py:285-320 | valid iff a date is returned, and a returned date is ISO with an age in [18, 70] |
| AiValidator.DobFormatsRoundTrip | ai_validator.py:293-300 | each of the seven formats reads back a valid date that it wrote |
| AiValidator.DobVerdictDayFirst | ai_validator.py:293-304 | "23/05/1990" is valid as "1990-05-23" whenever that date is in the age window |
| AiValidator.DobVerdictMonthFirst | ai_validator.py:293-304 | "05/23/1990" is valid as "1990-05-23": %d/%m/%Y rejects month 23 and %m/%d/%Y reads it |
| AiValidator.DobVerdictAmbiguousIsDayFirst | ai_validator.py:293-304 | "03/04/1990" is read day first, as 3 April 1990, because %d/%m/%Y comes before %m/%d/%Y |
| AiValidator.DobViaFormat | ai_validator.py:298-304 | when the format loop reads the stripped text, the verdict is valid with the loop's result |
| AiValidator.DobLoopAt | ai_validator.py:293-304 | a slashed date written by %d/%m/%Y, or by %m/%d/%Y when %d/%m/%Y fails on it, is returned by the loop as that date |
| AiValidator.LooseYmdSearch | ai_validator.py:309 | the loose year-then-two-numbers pattern matched at some position k with no match at any earlier position, or None iff no position matches |
| AiValidator.ValidateDob | ai_validator.py:285-320 | the method computes the verdict |
| AiValidator.ValidateDobKeepsAdultIso | ai_validator.py:285-320 | an ISO date with an age in [18, 70] is accepted unchanged |
| AiValidator.ValidateDobRejectsOutsideWindow | ai_validator.py:298-318 | a date outside the age window is never returned |
| AiValidator.QuoteKeysKeepsQuoted | ai_validator.py:111-113 | quoting keys leaves text with no bare key unchanged |
| AiValidator.VerdictFromWords | ai_validator.py:121-142 | None iff neither a yes word nor a no word occurs; otherwise is_name holds iff a yes word occurs; confidence is the leftmost confidence number when one occurs and is non-zero, else 0.5 (a zero reads as false to `or`) |
| AiValidator.ConfidenceSearch | ai_validator.py:132 | a confidence number (0.digits or 1.0) matched at some position k with no match at any earlier position, or None iff no position matches |
| AiValidator.ExtractedJson | ai_validator.py:88-142 | a reply that loads whole is returned; None only when no stage succeeds |
| AiValidator.ExtractJsonFromResponse | ai_validator.py:88-142 | the method computes the three-stage result |
| AiValidator.YesBeforeNo | ai_validator.py:126-129 | "true"/"yes" is tested before "false"/"no" |
| AiValidator.TranslateClears | ai_validator.py:225-238 | after the replacements no OCR character (full-width digit, ㈱, ㈲) remains |
| AiValidator.FullWidthDigitsNarrowed | ai_validator.py:232-233 | each full-width digit maps to its ASCII digit |
| AiValidator.JoinKanaAsWrittenKeepsGap | ai_validator.py:241 | as written, "あ い う" becomes "あい う": a gap between kana survives |
| AiValidator.JoinKanaNoGap | ai_validator.py:241 | corrected: no gap between kana survives |
| AiValidator.FixEmailKeepsUnspaced | ai_validator.py:244-245 | text without spaces is unchanged by the e-mail spacing fix |
| AiValidator.AddressAtSpaced | ai_validator.py:244-245 | a local part, " @ ", a domain, " . " and a label of two or more letters to the end is one match, replaced by local@domain.label and ending at the end of the text |
| AiValidator.FixEmailSpacingCloses | ai_validator.py:244-245 | a text that is one spaced address `u @ v . w` (local characters, domain characters, two or more letters) comes out of the fix as `u@v.w` |
| AiValidator.FixEmailSpacingExample | ai_validator.py:244-245 | "taro @ example . com" comes out of the fix as "taro@example.com" |
| AiValidator.PreprocessKeepsCleanText | ai_validator.py:219-247 | text without spaces or OCR characters is unchanged |
| AiValidator.PreprocessClearsOcrAndGaps | ai_validator.py:219-247 | corrected: after the OCR replacements and the corrected kana join, no OCR character and no space between two kana remains |
| AiValidator.PreprocessJapaneseText | ai_validator.py:219-247 | corrected: the text is the OCR replacements in order, then the corrected kana join, then the e-mail spacing fix |
| Evaluator.NormalizeWith | evaluator.py:226-245 | empty stays empty; the result has collapsed whitespace; e-mails are lower-cased; other non-name fields are only collapsed |
| Evaluator.NormalizeName | evaluator.py:240-243 | a name is collapsed, stripped of honorifics and collapsed again |
| Evaluator.NormalizeIdempotent | evaluator.py:226-245 | normalising twice is normalising once |
| Evaluator.NormalizeIgnoresSpacing | evaluator.py:232 | values that differ only in spacing normalise the same |
| Evaluator.StripMrsAsWritten | evaluator.py:242 | as written, "Mrs Ito" loses only "Mr" and gives "s Ito" |
| Evaluator.MrsAsWritten | evaluator.py:242 | as written, "Mrs Ito" normalises to "s Ito" |
| Evaluator.StripMrs | evaluator.py:242 | corrected: "Mrs Ito" gives "Ito" |
| Evaluator.MrsRecognised | evaluator.py:242 | corrected: "Mrs Ito" and "Ito" normalise the same |
| Evaluator.ParseDate | evaluator.py:247-273 | empty gives None; ISO is kept; any result is ISO-shaped |
| Evaluator.ParseDateIdempotent | evaluator.py:247-273 | parsing a parsed date changes nothing |
| Evaluator.ParseDateFields | evaluator.py:256-271 | a year-first match is read Y-M-D; otherwise the date is group 3, group 1, group 2 |
| Evaluator.PhoneMatchAsWritten | evaluator.py:206-214 | as written: fuzzy iff the digits are equal |
| Evaluator.NotAvailablePartialAsWritten | evaluator.py:213 | as written, "N/A" against a real phone is rated partial |
| Evaluator.NoDigitsPartialAsWritten | evaluator.py:213 | as written, any digitless phone is partial against a phone with digits |
| Evaluator.PhoneMatch | evaluator.py:206-214 | corrected: fuzzy iff equal digits; partial iff the extracted digits are non-empty, different and a substring of the truth's |
| Evaluator.NoDigitsNotPartial | evaluator.py:213 | corrected: a digitless phone is never partial |
| Evaluator.MatchQuality | evaluator.py:174-224 | corrected (built on `StripMrs` and `PhoneMatch`): missing iff either value is empty; exact iff the normalised values are equal; e-mails are only exact, wrong or missing |
| Evaluator.SameDigitsCorrect | evaluator.py:206-212 | phones with the same digits are correct |
| Evaluator.SameDateCorrect | evaluator.py:216-222 | dates that parse to the same ISO date are correct |
| Evaluator.CorrectSymmetric | evaluator.py:174-224 | outside names, correctness does not depend on which side is extracted |
| Evaluator.SpacingExact | evaluator.py:185-190 | values differing only in spacing are exact |
| Evaluator.GroundTruth | evaluator.py:131-144 | the ground truth is the sample object, or the first one of a list |
| Evaluator.SampleTruth | evaluator.py:131-144 | a labelled sample yields its four fields, alone or in a list |
| Evaluator.CompareField | evaluator.py:154-170 | corrected (built on `MatchQuality`): no_ground_truth iff the truth is None; missing when nothing was extracted; otherwise the match quality; it raises only on a truthy non-string truth |
| Evaluator.CompareUpTo | evaluator.py:154-170 | the comparison has one entry per field compared so far, each that field's verdict |
| Evaluator.CompareUpToRaised | evaluator.py:142-169 | once a field raises, the comparison stays raised |
| Evaluator.CompareExtraction | evaluator.py:122-172 | corrected (built on `CompareField`): the loop over the four fields yields `Comparisons`, whose properties `ComparisonsFacts` states |
| Evaluator.ComparisonsFacts | evaluator.py:122-172 | every field is compared; no_ground_truth iff the truth is None; missing when the truth exists and nothing was extracted |
| Evaluator.Tally | evaluator.py:297-317 | total = exact + fuzzy + partial + wrong + missing; correct = exact + fuzzy; total is at most the sample count |
| Evaluator.TallyCounts | evaluator.py:297-317 | each counter equals the number of samples in its bucket; no_ground_truth samples count nowhere |
| Evaluator.AccuracyRange | evaluator.py:320-321 | accuracy lies in [0, 100]; 100 iff all of a non-empty total are correct; 0 iff none are |
| Evaluator.TallyField | evaluator.py:297-321 | the counting loop computes the tally and its accuracy |
| Evaluator.CalculateMetrics | evaluator.py:275-332 | one entry per field with its tally; overall accuracy pools all fields |
| Evaluator.MetricsInRange | evaluator.py:320-330 | every accuracy and the overall accuracy lie in [0, 100] |
| PromptOptimizer.CleanAnswer | prompt_optimizer.py:245-248 | a result is non-empty, without surrounding quotes, and no longer than the reply |
| PromptOptimizer.CallAi | prompt_optimizer.py:225-252 | a failed call gives None; a result is never empty |
| PromptOptimizer.CleanAnswerKeepsBareValue | prompt_optimizer.py:245-248 | a bare, unquoted, unlabelled answer is kept |
| PromptOptimizer.CleanAnswerDropsLabel | prompt_optimizer.py:245 | an "Answer:", "Result:" or "Output:" label is dropped |
| PromptOptimizer.CleanAnswerBlank | prompt_optimizer.py:246-248 | a blank answer gives None |
| PromptOptimizer.ParseDate | prompt_optimizer.py:286-313 | empty gives None; ISO is kept; any result is ISO-shaped |
| PromptOptimizer.ParseDateIdempotent | prompt_optimizer.py:286-313 | parsing a parsed date changes nothing |
| PromptOptimizer.SlashDateDayFirst | prompt_optimizer.py:296-305 | "a/b/yyyy" is always read day first |
| PromptOptimizer.YearLastGroups | prompt_optimizer.py:296-299 | the day-first pattern captures day, month and year |
| PromptOptimizer.SlashDateYearFirst | prompt_optimizer.py:307-311 | "yyyy/m/d" is read year, month, day, with month and day padded to two digits |
| PromptOptimizer.YearFirstGroups | prompt_optimizer.py:308-310 | the year-first pattern captures year, month and day |
| PromptOptimizer.IsMatchAsWritten | prompt_optimizer.py:254-284 | as written: no match when either value is empty |
| PromptOptimizer.NoDigitsMatchAsWritten | prompt_optimizer.py:261-267 | as written, a digitless answer matches any phone |
| PromptOptimizer.IsMatch | prompt_optimizer.py:254-284 | corrected: no match for empty values or unknown fields; a phone match needs digits on both sides; dates match only when they parse the same |
| PromptOptimizer.PhoneMatchDigits | prompt_optimizer.py:261-267 | corrected: phones match iff both have digits and one digit string contains the other |
| PromptOptimizer.MatchSymmetric | prompt_optimizer.py:254-284 | outside names, matching does not depend on the order of the values |
| PromptOptimizer.EmailMatchIgnoresCase | prompt_optimizer.py:269-270 | e-mails equal up to case match |
| PromptOptimizer.SlashAndIsoDatesMatch | prompt_optimizer.py:277-282 | "d/m/yyyy" matches its ISO form |
| PromptOptimizer.MatchWith | prompt_optimizer.py:254-284 | no match for empty values or unknown fields, whatever the phone rule |
| PromptOptimizer.SampleTruth | prompt_optimizer.py:187-205 | a sample without input or output raises; unknown fields have no truth |
| PromptOptimizer.MatchValue | prompt_optimizer.py:210-216 | corrected (built on `IsMatch`): a string truth is matched by `IsMatch`; no answer or a falsy truth is no match |
| PromptOptimizer.Verdict | prompt_optimizer.py:207-217 | corrected (built on `MatchValue`): a sample without truth is never counted as correct |
| PromptOptimizer.Tally | prompt_optimizer.py:207-218 | correct is at most total, and total is at most the number of samples |
| PromptOptimizer.TallyRaisedStays | prompt_optimizer.py:191-218 | once a sample raises, the whole strategy test raises |
| PromptOptimizer.TotalIsGraded | prompt_optimizer.py:207-218 | total counts exactly the samples with ground truth |
| PromptOptimizer.CorrectIsMatched | prompt_optimizer.py:210-216 | correct counts exactly the graded samples whose answer matched |
| PromptOptimizer.GradedNone | prompt_optimizer.py:207-208 | samples without ground truth are not graded |
| PromptOptimizer.UnknownFieldGradesNothing | prompt_optimizer.py:191-208 | an unknown field grades no sample |
| PromptOptimizer.Score | prompt_optimizer.py:178-223 | corrected (built on `Verdict`): a score lies in [0, 100] |
| PromptOptimizer.ScoreOf | prompt_optimizer.py:220-223 | the score is the accuracy of the tally, or the tally's exception |
| PromptOptimizer.ScoreZeroWithoutTruth | prompt_optimizer.py:220-221 | with nothing graded the score is 0 |
| PromptOptimizer.GradeSample | prompt_optimizer.py:187-216 | corrected (built on `Verdict`): one sample graded: its truth's exception, unchanged counts without truth, the match's exception, or one more graded sample and one more correct iff it matched |
| PromptOptimizer.CountSamples | prompt_optimizer.py:191-218 | corrected: the counting loop yields the tally of the samples' truths and verdicts |
| PromptOptimizer.TestStrategy | prompt_optimizer.py:178-223 | corrected: the strategy test yields `Score`, which lies in [0, 100] |
| DocumentParser.MeaningfulText | document_parser.py:299-355 | empty text is not meaningful; meaningful iff the stripped text passes the length, word, average-length, alphabetic-share and common-word checks; it can raise only for blank text with non-positive limits |
| DocumentParser.MeaningfulIgnoresSurroundingSpace | document_parser.py:315-318 | surrounding space does not change the verdict |
| DocumentParser.PlumberText | document_parser.py:182-210 | a result is never blank; no document gives None |
| DocumentParser.OcrText | document_parser.py:255-297 | a result is never blank; failed OCR gives None |
| DocumentParser.SinglePage | document_parser.py:182-297 | one non-blank page gives its text, stripped for OCR |
| DocumentParser.ParsePdf | document_parser.py:113-180 | meaningful pdfplumber text first; else meaningful OCR text when fallback is on; else non-blank pdfplumber text; else failed |
| DocumentParser.ParsePdfPrefersMeaningful | document_parser.py:133-168 | a non-meaningful result means no meaningful text was available |
| DocumentParser.NoFallbackNoOcr | document_parser.py:159-180 | without fallback OCR is never used |
| DocumentParser.ParseDocx | document_parser.py:357-403 | a result is non-blank and tagged docx; otherwise failed |
| DocumentParser.EmptyDocxFails | document_parser.py:389-394 | a document with only blank paragraphs and cells fails |
| DocumentParser.Suffix | document_parser.py:90 | the suffix is empty or a dot followed by no further dot, ending the file name |
| DocumentParser.UpperCaseSuffix | document_parser.py:90-98 | the suffix keeps its case, so "CV.PDF" is lower-cased to a PDF |
| DocumentParser.HiddenNameNoSuffix | document_parser.py:90 | ".pdf" alone has no suffix |
| DocumentParser.BareNameNoSuffix | document_parser.py:90 | a name without a dot has no suffix |
| DocumentParser.Parse | document_parser.py:72-101 | a missing file fails; .pdf goes to the PDF ladder; .docx and .doc to the DOCX parser; anything else fails |
| MarkerExtractor.ExtractPdf | marker_extractor.py:198-260 | a missing file gives None; sufficient Marker text is kept; otherwise OCR is taken only when enabled, available, non-empty and longer than Marker's text, or Marker gave nothing |
| MarkerExtractor.NeverWorseThanMarker | marker_extractor.py:228-260 | the text returned is never shorter than Marker's once stripped |
| MarkerExtractor.OcrTakenWhenBetter | marker_extractor.py:247-258 | better OCR text is always taken |
| MarkerExtractor.ExtractionStats | marker_extractor.py:262-299 | {} iff the text is empty; chars = length; lines = newlines + 1; words = the number of whitespace-separated words (at most chars); sections, table rows and list items = the numbers of lines that are headers, have two or more '\|', or start with '-', '*' or '+' once stripped (each at most lines); tables and lists detected iff counted; code blocks = half the non-overlapping occurrences of three backquotes, six characters per block |
| MarkerExtractor.ExtractionStatsExample | marker_extractor.py:275-299 | a fenced block, a header, a table row and a list item on four lines count 4 lines and one of each kind |
| MarkerExtractor.KeepOnly | marker_extractor.py:279-285 | when only one line passes a filter, the filter keeps that line alone |
| MarkerExtractor.FenceCount | marker_extractor.py:288 | one fenced block before fence-free text gives two occurrences of three backquotes |
| Text.JoinSplitOn | marker_extractor.py:275 | splitting pieces free of the separator, joined by it, gives the pieces back |
| MarkerExtractor.LinesCounted | marker_extractor.py:275 | splitting on a character gives one more piece than it has occurrences |
| MarkerExtractor.WordsBound | marker_extractor.py:276 | there are no more words than characters |
| MarkerExtractor.CountFromBound | marker_extractor.py:288 | each counted occurrence takes its own characters |
| CheckResumes.CandidateOfFile | check_resumes.py:16-17 | the candidate is the name of the file's parent directory |
| CheckResumes.Extension | check_resumes.py:23 | the extension is empty or a dot with no further dot, ending the file name |
| CheckResumes.ExtensionExamples | check_resumes.py:23 | "cv.PDF" has ".PDF" and ".profile" has none |
| CheckResumes.LanguageOf | check_resumes.py:25-30 | Japanese iff "japanese" or a kanji of 履歴書職務経歴書 occurs; English iff not Japanese and "english" or "resume" occurs |
| CheckResumes.JapaneseTakesPrecedence | check_resumes.py:25-27 | the Japanese test wins over the English one |
| CheckResumes.IdentifyLanguageAndFormat | check_resumes.py:12-32 | the loop builds exactly the classified candidates |
| CheckResumes.FileOne | check_resumes.py:15-30 | one iteration files one path under its candidate |
| CheckResumes.BuildEntries | check_resumes.py:12-32 | a candidate has an entry iff one of its files was seen, and that entry is its filings |
| CheckResumes.EveryFileFiledOnce | check_resumes.py:19-30 | file_count equals the number of formats filed under the three languages |
| CheckResumes.FormatsPresent | check_resumes.py:25-30 | a language list is non-empty iff some file of that language was seen |
| CheckResumes.SortedSetCorrect | check_resumes.py:39-40 | sorted(set(...)) is increasing and holds exactly the formats |
| CheckResumes.ReportRows | check_resumes.py:36-42 | every row is a listed candidate with both Japanese and English files |
| CheckResumes.ReportRowsMembers | check_resumes.py:37-42 | a candidate has a row iff it has both Japanese and English files |
| CheckResumes.GenerateReport | check_resumes.py:34-42 | the loop builds exactly the report rows |
| CheckResumes.ReportedCandidates | check_resumes.py:12-42 | a candidate is reported iff it has a Japanese file and an English file; "Many Files" is Yes iff it has more than 5 files |
| CheckResumes.RowFormats | check_resumes.py:39-40 | the formats column joins the sorted, deduplicated formats |

## Left out

- Language-model calls: every `ollama.chat` call and `_test_model` probe is replaced by the reply text as an input, or `None` where the call failed (network I/O).
- PDF, DOCX, OCR and Marker conversion (pdfplumber, pytesseract, pdf2image, python-docx, Marker): the texts they produce are inputs; only the decisions around them are modelled.
- `document_parser._normalize_path` (document_parser.py:103-111): path resolution is filesystem I/O; `Parse` takes the path as given and a `found` flag.
- Filesystem scanning and report writing: `os.walk`, `find_resume_files`, the DataFrame/CSV output of `generate_report` (check_resumes.py:44-45), the CLI, menus, checkpoints and report files of `main.py` and `utils.py`.
- `main._extract_with_mega_regex` and the other large regexes: their matches (date groups, phone candidates, experience and education anchors, emergency hits) are inputs; each small regex used in a decision is a hand-written recogniser.
- `main._extract_data_from_text` calls `extract_all_fields` (main.py:954), which the current `AIExtractor` does not define; the call is modelled as an arbitrary outcome, raised or returned, so the regex-only path is one case.
- `fuzz.ratio` and `SequenceMatcher`: an uninterpreted similarity function.
- The clock: today's date is a parameter; the age test days/365.25 in [18, 70] is stated on whole day counts.
- Accuracy percentages are `real`, not floating point; confidence scores are kept as text.
- `unicodedata.normalize('NFKC')`: only the explicit character maps (full-width digits, ㈱, ㈲) are modelled.
- Character classes: `\d` is the ASCII digits (`IsDigit`); `.lower()`, `.upper()`, `isupper()` and `islower()` act on ASCII letters only; `isalpha()` (`IsAlpha`) is the ASCII letters plus Latin-1 letters, kana, CJK ideographs and full-width Latin letters (`IsWideLetter`); `\w` (`IsWordChar`) is those, the ASCII and full-width digits and '_'. Other Unicode letters and digits, and the case mapping of non-ASCII letters, are not modelled.
- main.py is stored double-encoded: its UTF-8 literals were read back as Mac Roman, so its Japanese words, brackets and full-width digits appear as strings such as 'Âà•Âêç' and 'Ôºê'. Apart from the digit tables (see Findings), the model reads these literals as the characters they evidently stood for.
- StandardizePhoneFormatJapanese (MainExtractor): as stored, the full-width digit table at main.py:486 raises ValueError before any grouping (`PhoneFormatAsStoredRaises`); the contract is stated for the intended table (see Findings).
- StandardizePhoneFormatGrouped (MainExtractor): as stored, the same ValueError at main.py:486 comes first; the contract is stated for the intended table.
- EraYear (MainExtractor): as stored, the era names at main.py:623-627 are the mojibake strings and never match real text; and `normalize_numbers` raises before the era is read (main.py:587). The contract is stated for the intended names.
- ExtractDobFromText (MainExtractor): as stored, every match raises in `normalize_numbers` and is skipped, so no date of birth is ever found (`DobAsStoredLosesDate`); the contract is stated for the intended table (see Findings).
- IsValidNameStrict (MainExtractor): as stored, the Japanese blacklist words at main.py:863-865 are mojibake, so real section words such as 履歴書 are not rejected by the blacklist; the contract is stated for the intended words.
- StrictNameHasCapital (MainExtractor): as for IsValidNameStrict, the contract uses the intended blacklist.
- CleanNameNoBrackets (MainExtractor): as stored, the bracket classes at main.py:885 are [Ôºà(] and [Ôºâ)], so full-width brackets are not removed and 'Ô', 'º', 'à' open a bracket while 'Ô', 'º', 'â' close one; the contract is stated for the intended full-width and ASCII brackets.
- CleanNameIdempotent (MainExtractor): as for CleanNameNoBrackets, the contract uses the intended bracket classes.
- MatchQuality (Evaluator): built on the corrected `StripMrs` and `PhoneMatch`; as written, "Mrs" names and digitless phones are rated as the Findings rows for evaluator.py:213 and evaluator.py:242 show.
- CompareField (Evaluator): built on the corrected `MatchQuality`; it differs from the code as written exactly where MatchQuality does.
- CompareExtraction (Evaluator): built on the corrected `CompareField`; it differs from the code as written exactly where CompareField does.
- MatchValue (PromptOptimizer): built on the corrected `IsMatch`; as written, a digitless phone answer matches any phone truth (Findings row for prompt_optimizer.py:261-267).
- Verdict (PromptOptimizer): built on the corrected `MatchValue`; it differs from the code as written exactly where MatchValue does.
- Score (PromptOptimizer): built on the corrected `Verdict`; the bound [0, 100] holds as written too, but the score's value follows the corrected matching.
- GradeSample (PromptOptimizer): built on the corrected `Verdict`.
- CountSamples (PromptOptimizer): built on the corrected `GradeSample`.
- TestStrategy (PromptOptimizer): built on the corrected `CountSamples` and `Score`.
- PreprocessJapaneseText (AiValidator): built on the corrected `JoinKanaNoGap` join; as written, the kana-gap substitution leaves every second gap in a run (Findings row for ai_validator.py:241).
- PreprocessClearsOcrAndGaps (AiValidator): the no-gap half holds only for the corrected join; as written, "あ い う" keeps a gap.
- `json.loads` is an uninterpreted function; a reply that loads to something other than an object is treated as not parsing.
- `prompt_optimizer._parse_date`'s MM/DD branch (prompt_optimizer.py:301-305) is unreachable, since its pattern repeats the DD/MM branch; the model has no such branch, and `SlashDateDayFirst` states the consequence.
- `utils.standardize_date` returns an ISO-shaped string unchanged, without the age check that other formats get, so "2030-01-01" is accepted; the model follows the code (`StandardizeDateSkipsAgeCheckOnIso`).
- BuildEntries (CheckResumes): it is stated over the list of filings computed from the paths, not over the paths themselves, to keep the proof small; `Filings` computes one filing per path.
- CleanNameAi (AiExtractor): its own contract states only the non-string case and a length bound; title and degree removal are stated by `DropTitleRemoves` and `DropDegreeRemoves`.
- CleanNameOld (AiExtractorOld): its own contract states only a length bound; honorific removal is stated by `CleanNameOldDropsHonorifics`.
- NameFromFolder (MainExtractor): its own contract states only that a result is trimmed and non-empty; the folder layouts are stated by `NameFromFolderFamilyFirst`. As stored, the alias strip at main.py:1018 looks for the mojibake 'Âà•Âêç' rather than 別名 and never fires on real folder names; the model strips the intended word.
- Logging, `print` and emoji progress output are left out; they change no result.
- Training, serving and loading the fine-tuned model (`finetune_model.py`, `merge_lora.py`, `split_dataset.py`, model generation in `ai_extractor_finetuned.py`) are left out; they are machine-learning plumbing.
- File-backed learning state (`FeedbackLoopSystem` apart from `_extract_context_hint`, `InteractiveCorrectionSystem`, `PerformanceMonitor`) is left out; its state lives in JSON files.

## Findings

| source | as written | input that shows it | evidently intended | confidence | as-written member | corrected member |
|---|---|---|---|---|---|---|
| ai_extractor_old_v2.py:356-361 | the name check reads `ai_results`, which is undefined in `validate_and_enhance` | a regex result with name "Taro" raises NameError | compare against the header reply and return the merged result | not executed | AiExtractorOldV2.EnhancedV2AsWrittenRaises | AiExtractorOldV2.EnhancedV2Returns |
| ai_validator.py:241 | the kana-gap substitution consumes the kana after the space, so the next gap cannot match | "あ い う" becomes "あい う" | every space between two kana is removed | not executed | AiValidator.JoinKanaAsWrittenKeepsGap | AiValidator.JoinKanaNoGap |
| evaluator.py:213 | a digitless extracted phone has "" as its digits, and "" is in every string | "N/A" against "03-1234-5678" is rated partial | partial only for a non-empty digit substring | not executed | Evaluator.NotAvailablePartialAsWritten | Evaluator.NoDigitsNotPartial |
| evaluator.py:242 | the honorific alternation tries "Mr" before "Mrs" | "Mrs Ito" normalises to "s Ito" | "Mrs Ito" normalises to "Ito" | not executed | Evaluator.MrsAsWritten | Evaluator.MrsRecognised |
| prompt_optimizer.py:261-267 | a digitless answer has "" as its digits, and "" is in every string | "N/A" matches any phone | no match without digits | not executed | PromptOptimizer.NoDigitsMatchAsWritten | PromptOptimizer.PhoneMatchDigits |
| main.py:486 | the full-width digit table passes a 30-character string and a 10-character string to `str.maketrans`, which raises ValueError on every call | any phone, e.g. "03-1234-5678" | full-width digits narrowed and the number grouped | not executed | MainExtractor.PhoneFormatAsStoredRaises | MainExtractor.StandardizePhoneFormatJapanese |
| main.py:587 | `normalize_numbers` builds the same table and raises on every match; the exception is caught and the match skipped, so no date of birth is ever found | "DOB: 1990/01/15" | "1990-01-15" | not executed | MainExtractor.DobAsStoredLosesDate | MainExtractor.ExtractDobFromText |
