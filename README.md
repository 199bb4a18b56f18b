# A verified model of a stance-labelling pipeline for Vietnamese comments

The repository collects comments under Facebook, YouTube, Reddit, TikTok and Threads posts with browser scripts, cleans them, summarises each post with Gemini, and labels each comment with one of three stances: PHAN_DONG, KHONG_PHAN_DONG or KHONG_LIEN_QUAN. The labelling works under per-key request quotas. This project models the deterministic machinery around the model calls and proves what that machinery promises.

The modules follow the program's files.

- `RateLimit` (`RateLimitManager` of labeling/3_gemini_label.py) and `KeyManager` (`APIKeyManager` of preprocessing/2_summarize_and_prepare.py) are classes over a key list, a usage map and a rotation index. They cover counter resets, limit checks, usage recording and the cyclic scan for a free key; `Cyclic` holds the ring arithmetic of those scans.
- `Tokens` is the four-characters-per-token estimate, and `Labels` is the closed set of stances.
- `GeminiLabel` models labeling/3_gemini_label.py: batches sized by the estimate, the model reply decoded into labels, the regex overrides, the "Đại" post-processing, and the stage order per summary group. `JsonValues` holds the decoded JSON values.
- `EnhancedLabel` models preprocessing/02_gemini_labeling.py: the stance prompt, the CSV reply parser, keyword scoring with its nearest-distance loop, the second stage, the override rules and the pipeline per post.
- `Summarize`, `SummaryBatch` and `SummaryFiles` model preprocessing/2_summarize_and_prepare.py. That covers the batch prompt, the recursive halving of rejected batches, the retry loop with its fallbacks, the four-strategy JSON parser, the file names, the output columns and the success count.
- `PostSummarizer` models labeling/04_post_summarizer.py. `Comparison` is the comparison text both summarisers write.
- `MergeSummary` and `MergeDataset` model labeling/05_merge_summary_to_dataset.py. They cover the summaries read back from the comparison text, and the rename, label and summary mapping and column order of the dataset.
- `Cleaning` and `MinimalClean` model preprocessing/01_first_clean.py. `FirstClean` models preprocessing/1_first_clean.py: word counts, the short and long filters, and balancing per post.
- `ThreadsScraper` and `Md5`, `YouTubeScraper`, `RedditScraper`, `TikTokScraper` and `FacebookScraper` model the five browser scripts. `Dates` is the shared `formatDate`, `Csv` the quoting of cells and the reading back by `csv.reader`, and `Patience` the give-up counters of the loading loops.
- `Text`, `Frames` and `Wrappers` hold the string, table and option helpers the rest uses.

What the page, the clock, the model service, `json.loads`, the regular expressions and the user's answers return become parameters of the operations that read them. Loops over page views see the page as a sequence of observations that stays at its last one.

## Model

| member | source | states |
|---|---|---|
| RateLimit.LimitsFor | labeling/3_gemini_label.py:45-60 | the caps of the eight listed models; any other model name gets gemini-2.5-flash's 10 requests per minute and 250 per day; every cap is positive |
| RateLimit.Reset | labeling/3_gemini_label.py:86-99 | the minute counter is zeroed exactly when the minute differs from its stamp, the day counter exactly when the day differs; both stamps then read the clock |
| RateLimit.ResetIdempotent | labeling/3_gemini_label.py:86-99 | resetting a key twice at the same instant is the same as resetting it once |
| RateLimit.Judge | labeling/3_gemini_label.py:101-112 | a key is available iff both counters are below their caps; "RPM limit exceeded" iff the minute counter is at its cap, "RPD limit exceeded" iff only the day counter is |
| RateLimit.FirstPass | labeling/3_gemini_label.py:120-136 | the first scan offset whose key passes after its reset, with no passing key before it; nothing iff no key of the lap passes |
| RateLimit.AfterVisitsAt | labeling/3_gemini_label.py:120-136 | after a scan of `m` keys, each visited key holds its reset counters and every other key is untouched |
| RateLimit.VisitedAll | labeling/3_gemini_label.py:132-136 | a full lap from any start visits every key |
| RateLimit.NoPassMeansAllCapped | labeling/3_gemini_label.py:120-136 | when the scan finds no key, every key is over a cap once reset |
| RateLimit.ZeroMinutes | labeling/3_gemini_label.py:155-157 | every pool key gets a zero minute counter stamped with the new minute; day counters and keys outside the pool are untouched |
| RateLimit.ScanKeys | labeling/3_gemini_label.py:120-136 | the loop of `get_available_key`: it reports a key iff `FirstPass` finds one, stops on that key's slot with the visited keys reset, and otherwise leaves the whole lap reset |
| RateLimit.VisitKey | labeling/3_gemini_label.py:125-126 | one visit: the key at the current offset is reset and whether it passes is `PassesAt` |
| RateLimit.WaitFailureMeansDailyCaps | labeling/3_gemini_label.py:140-160 | if the rescan after zeroing the minute counters still finds nothing, every key has used up its daily requests today |
| RateLimit.WaitFindsDailyRoom | labeling/3_gemini_label.py:150-160 | if some key still has daily room today, the rescan after zeroing the minute counters finds a key |
| RateLimit.RescanFailure | labeling/3_gemini_label.py:155-160 | a failed rescan leaves every key stamped today with its daily counter at the cap |
| RateLimit.RateLimitManager.constructor | labeling/3_gemini_label.py:39-71 | the caps are looked up once from the model name given; key index 0; every key starts with zero counters stamped with the clock |
| RateLimit.RateLimitManager.SetModelName | labeling/3_gemini_label.py:42 | the model name changes and the caps fixed at construction do not |
| RateLimit.RateLimitManager.RotateKey | labeling/3_gemini_label.py:79-84 | the index moves to the next key, cyclically, and that key is returned |
| RateLimit.RateLimitManager.ResetCountersIfNeeded | labeling/3_gemini_label.py:86-99 | only the given key changes, to `Reset` of its old counters |
| RateLimit.RateLimitManager.CheckLimits | labeling/3_gemini_label.py:101-112 | the key is reset, then judged: minute cap tested before the day cap, with the source's reason strings |
| RateLimit.RateLimitManager.RecordUsage | labeling/3_gemini_label.py:114-118 | both counters of the key go up by one; nothing else changes |
| RateLimit.RateLimitManager.GetAvailableKey | labeling/3_gemini_label.py:120-138 | the first passing key of the lap is returned and the index stays on it; when none passes the index is back at its start and every key was reset once |
| RateLimit.RateLimitManager.ZeroMinuteCounters | labeling/3_gemini_label.py:155-157 | the usage table becomes `ZeroMinutes` of the old one |
| RateLimit.RateLimitManager.WaitForAvailableKey | labeling/3_gemini_label.py:140-160 | a key found on the first scan is returned at once; otherwise the minute counters are zeroed and the result is the rescan's |
| KeyManager.LimitsFor | preprocessing/2_summarize_and_prepare.py:55-66 | gemini-2.5-flash-preview-05-20 has its own caps; every other model name gets gemini-2.0-flash's 15 per minute and 1500 per day; caps are positive |
| KeyManager.SecondsField | preprocessing/2_summarize_and_prepare.py:118 | `timedelta.seconds` is below one day's seconds |
| KeyManager.SecondsFieldIgnoresDays | preprocessing/2_summarize_and_prepare.py:118 | whole days between the two instants do not show in the seconds field |
| KeyManager.DayOldRequestNotAMinuteAgo | preprocessing/2_summarize_and_prepare.py:118 | a request one day and ten seconds old has a seconds field of 10, so the minute counter is not reset |
| KeyManager.Refresh | preprocessing/2_summarize_and_prepare.py:110-119 | the day counter is zeroed and restamped exactly when the calendar date has moved past the stamp; the minute counter is zeroed exactly when there was an earlier request and the seconds field since it is 60 or more |
| KeyManager.RefreshIdempotent | preprocessing/2_summarize_and_prepare.py:110-119 | refreshing twice at the same instant is refreshing once |
| KeyManager.Judge | preprocessing/2_summarize_and_prepare.py:121-130 | allowed iff both counters are under their caps; the day cap is tested first, so "minute limit" only when the day counter is under its cap |
| KeyManager.FirstAllowed | preprocessing/2_summarize_and_prepare.py:132-144 | the first offset of the lap whose key is allowed after its refresh, none before it; nothing iff no key is allowed |
| KeyManager.AfterVisitsAt | preprocessing/2_summarize_and_prepare.py:132-144 | after `m` visits each visited key holds its refreshed record and every other key is untouched |
| KeyManager.VisitStep | preprocessing/2_summarize_and_prepare.py:137 | one visit refreshes the key at the offset and its verdict is `AllowedAt` |
| KeyManager.NoneAllowedMeansAllRefused | preprocessing/2_summarize_and_prepare.py:132-144 | when the scan finds nothing, every key is refused once refreshed |
| KeyManager.RescanAtSameInstantFails | preprocessing/2_summarize_and_prepare.py:156-163 | a second scan at the same instant after a failed one also finds nothing |
| KeyManager.ScanKeys | preprocessing/2_summarize_and_prepare.py:132-144 | the loop of `find_available_key`: it reports success iff `FirstAllowed` finds a key, stops on that key's slot with the visited keys refreshed, and otherwise leaves the lap refreshed and the index back at its start |
| KeyManager.VisitKey | preprocessing/2_summarize_and_prepare.py:137-140 | one visit refreshes the current key and reports whether it is allowed |
| KeyManager.NoneWhenAllRefused | preprocessing/2_summarize_and_prepare.py:132-144 | if no remaining key is allowed the scan finds nothing |
| KeyManager.APIKeyManager.constructor | preprocessing/2_summarize_and_prepare.py:73-87 | caps from the model name (gemini-2.0-flash's for unknown names), index 0, every key with zero counters, no last request and the clock as its reset stamp |
| KeyManager.APIKeyManager.SwitchApiKey | preprocessing/2_summarize_and_prepare.py:100-104 | the index moves to the next key cyclically |
| KeyManager.APIKeyManager.CanMakeRequest | preprocessing/2_summarize_and_prepare.py:106-130 | only the current key's record changes, to its refresh, and the answer is whether the refreshed record is allowed |
| KeyManager.APIKeyManager.FindAvailableKey | preprocessing/2_summarize_and_prepare.py:132-144 | success iff some key of the lap is allowed; the index stops on the first allowed key, or is back at its start |
| KeyManager.APIKeyManager.RecordRequest | preprocessing/2_summarize_and_prepare.py:146-154 | both counters of the current key go up by one and its last request becomes now; nothing else changes |
| KeyManager.APIKeyManager.WaitIfNeeded | preprocessing/2_summarize_and_prepare.py:156-163 | a key found at once is kept; otherwise the result is the second scan's, after the pause; with no time passed the second scan fails too |
| Cyclic.SlotReturns | labeling/3_gemini_label.py:132-136 | the advancing index is back at its start iff it has made a whole lap |
| Cyclic.SlotInjective | labeling/3_gemini_label.py:132-136 | within one lap no slot is visited twice |
| Cyclic.SlotSurjective | labeling/3_gemini_label.py:132-136 | one lap visits every slot |
| Tokens.EstimateLength | labeling/3_gemini_label.py:754-758 | the estimate is at least 1, and for four or more characters it is the length divided by four, rounded down |
| Tokens.EstimateTokens | preprocessing/2_summarize_and_prepare.py:356-360 | the estimate of a string: at least 1, and `len // 4` from four characters on |
| Tokens.EstimateCell | preprocessing/02_gemini_labeling.py:56-61 | a cell that is not a string is estimated at 0 tokens, a string at 1 or more |
| Tokens.EstimateWithin | labeling/3_gemini_label.py:754-758 | the estimate is at most `k` iff the text is shorter than `4k + 4` characters |
| Tokens.EstimateMonotone | labeling/3_gemini_label.py:754-758 | a longer text never has a smaller estimate |
| Labels.FromCode | labeling/05_merge_summary_to_dataset.py:41-45 | codes 1, 2, 3 map to the label with that code; every other value maps to nothing |
| Labels.FromCodeCode | labeling/05_merge_summary_to_dataset.py:41-45 | reading a label's code gives the label back |
| Labels.FromName | labeling/3_gemini_label.py:465 | a recognised label string names the label it maps to |
| Labels.FromNameName | labeling/3_gemini_label.py:465 | the three names are exactly the valid set: each label's name maps back to it |
| Labels.NameInjective | labeling/3_gemini_label.py:465 | distinct labels have distinct names |
| Labels.FillMissing | labeling/3_gemini_label.py:476-479 | every batch row gets a label; rows with a label keep it and the others get KHONG_LIEN_QUAN |
| JsonValues.Get | labeling/3_gemini_label.py:468 | a key is found iff some member has it, and the value is that of its last occurrence, which is the one value `json.loads` keeps for a repeated key |
| JsonValues.Dict | labeling/3_gemini_label.py:443 | the dictionary `json.loads` builds has no more items than the object has members, and each of its items is a member of the object |
| JsonValues.GetDistinct | labeling/3_gemini_label.py:468 | on members whose keys are distinct, `get` of a member's key finds that member's value |
| JsonValues.DictFacts | labeling/3_gemini_label.py:468 | the dictionary `json.loads` builds from an object's members has each key once, and `get` on it agrees with `get` on the members: the last value of each key |
| GeminiLabel.CompressText | labeling/3_gemini_label.py:198-202 | a text within the limit comes back unchanged; a longer one is its first `limit` characters followed by "..." |
| GeminiLabel.CompressTextIdempotent | labeling/3_gemini_label.py:198-202 | compressing twice with the same limit is compressing once |
| GeminiLabel.CleanModelName | labeling/3_gemini_label.py:221 | same length, no '-' or '.' left, every other character kept in place |
| GeminiLabel.Stem | labeling/3_gemini_label.py:213-218 | the name without a trailing ".xlsx", never longer than the name |
| GeminiLabel.ModelSpecificFilename | labeling/3_gemini_label.py:210-228 | the stem, '_', the cleaned model name, the optional timestamp part, and ".xlsx" at the end |
| GeminiLabel.IsQuotaError | labeling/3_gemini_label.py:453-456 | an error whose message mentions "429" counts as a quota error, whatever its case, and the key is rotated |
| GeminiLabel.ModelSpecificFilenameIsNew | labeling/3_gemini_label.py:230-256 | the generated name always differs from the name it was made from, so options 2 and 3 never overwrite the file |
| GeminiLabel.CommentsData | labeling/3_gemini_label.py:385-390 | one entry per batch row whose stripped comment is not empty, each compressed to at most 303 characters; empty iff every stripped comment is empty |
| GeminiLabel.SummaryLine | labeling/3_gemini_label.py:396 | a summary is compressed to 200 characters; without one the fixed placeholder is used; never empty |
| GeminiLabel.Ending | labeling/3_gemini_label.py:415-460 | the retry loop ends with `{}` or with a reply of one of the attempts that decodes to a non-scalar value |
| GeminiLabel.EndingAfter | labeling/3_gemini_label.py:415-460 | the outcome from attempt 0 equals the outcome from attempt `n` when every attempt before `n` continued the loop |
| GeminiLabel.LabelCommentsBatch | labeling/3_gemini_label.py:382-460 | no comment text: `{}` and no key touched; otherwise the result is the loop's `Ending`, i.e. `{}` or a decoded non-scalar reply of some attempt |
| GeminiLabel.Attempt | labeling/3_gemini_label.py:416-458 | one attempt: it ends the loop exactly when the reply does not continue it, and then decides the loop's result |
| GeminiLabel.ReplyLabels | labeling/3_gemini_label.py:468-474 | the labels read from the first `n` dictionary items name only batch rows |
| GeminiLabel.ReplyLabelsAt | labeling/3_gemini_label.py:468-474 | a row has a label iff some dictionary item names it with a valid label, and the label is that of the last such item |
| GeminiLabel.ParsedLabels | labeling/3_gemini_label.py:462-481 | an object reply, read through the dictionary `json.loads` builds from its members, gives a label to exactly the batch rows; any other reply crashes `.items()` and gives nothing |
| GeminiLabel.ReadReplyItems | labeling/3_gemini_label.py:468-474 | the loop over `result.items()` computes `ReplyLabels` of all of them |
| GeminiLabel.FillBatchRows | labeling/3_gemini_label.py:476-479 | the fill loop computes `FillMissing` of the replied labels over the batch |
| GeminiLabel.ParseJsonLabels | labeling/3_gemini_label.py:462-481 | the method computes `ParsedLabels`, walking the decoded dictionary's items |
| GeminiLabel.ParsedLabelsAt | labeling/3_gemini_label.py:462-481 | the dictionary holds each key of the reply once with the value `get` finds, its last one; a row no dictionary item names with a valid label gets KHONG_LIEN_QUAN, and a row one names gets that item's label |
| GeminiLabel.RepeatedKeyLastValue | labeling/3_gemini_label.py:468-479 | a repeated key counts with its last value only: `{"5": "PHAN_DONG", "5": "xyz"}` leaves row 5 at KHONG_LIEN_QUAN |
| GeminiLabel.ForcedOutcome | labeling/3_gemini_label.py:527-541 | anti-government words force PHAN_DONG, else anti-reactionary words force KHONG_PHAN_DONG; a change is counted iff the forced label differs from the current one (missing counts as KHONG_LIEN_QUAN) |
| GeminiLabel.PutLookup | labeling/3_gemini_label.py:537-540 | writing a forced label changes that row's lookup only |
| GeminiLabel.RegexOverrides | labeling/3_gemini_label.py:524-546 | the overrides of the first `n` rows change at most `n` labels |
| GeminiLabel.RegexOverridesKeys | labeling/3_gemini_label.py:524-546 | no label is removed, and only batch rows are added |
| GeminiLabel.ApplyRegexOverrides | labeling/3_gemini_label.py:483-546 | the loop computes `RegexOverrides` over the whole batch, labels and counter |
| GeminiLabel.RegexOverridesAt | labeling/3_gemini_label.py:524-546 | each batch row ends with the forced label of its own text, or keeps its label; rows outside the batch keep theirs |
| GeminiLabel.RegexOverridesCount | labeling/3_gemini_label.py:524-546 | on a batch of distinct rows the counter is the number of rows whose label the overrides changed |
| GeminiLabel.DaiCorrection | labeling/3_gemini_label.py:548-569 | same rows; the only change is PHAN_DONG to KHONG_LIEN_QUAN; at most `n` changes |
| GeminiLabel.PostProcessDaiMentions | labeling/3_gemini_label.py:548-569 | the loop computes `DaiCorrection` over the whole batch |
| GeminiLabel.DaiCorrectionAt | labeling/3_gemini_label.py:552-564 | a batch row is corrected iff it was PHAN_DONG and its text holds 'đài' and none of the eleven strong keywords |
| GeminiLabel.DaiCorrectionIdempotent | labeling/3_gemini_label.py:548-569 | a second correction pass changes nothing and counts 0 |
| GeminiLabel.BatchLabels | labeling/3_gemini_label.py:620-627 | the three stages on an object reply label exactly the batch rows; a non-object reply gives nothing |
| GeminiLabel.BatchLabelsAt | labeling/3_gemini_label.py:620-627 | a row's final label is the 'đài' correction of the override of its parsed label |
| GeminiLabel.Range | labeling/3_gemini_label.py:614-615 | the row positions `lo` to `hi - 1`, in order |
| GeminiLabel.NonNull | labeling/3_gemini_label.py:603-604 | the distinct non-null summaries, each of which occurs in the column |
| GeminiLabel.WriteLabels | labeling/3_gemini_label.py:629-631 | rows with a label get its name, every other cell is kept |
| GeminiLabel.LabelBatch | labeling/3_gemini_label.py:614-631 | the decoded reply is `{}` or a decoded reply of one of three attempts; the run crashes iff it is not an object; otherwise every batch row gets its `BatchLabels` label and other rows are kept |
| GeminiLabel.InitialLabels | labeling/3_gemini_label.py:593-595 | without a label column every row starts with "" |
| GeminiLabel.LastWith | labeling/3_gemini_label.py:629-631 | the last batch whose labels name the row, none after it; nothing iff no batch names it |
| GeminiLabel.OverlayAt | labeling/3_gemini_label.py:629-631 | a cell of the column after the batches' writes holds the label of the last batch naming its row, and its old value when none does |
| GeminiLabel.OverlayAppend | labeling/3_gemini_label.py:629-631 | writing two runs of batches is writing the first and then the second over it |
| GeminiLabel.Outcomes | labeling/3_gemini_label.py:416-458 | one decoded reply per call so far, batch `b`'s from call `calls + b`: `{}` for a batch without comment text, otherwise how its retry loop ends |
| GeminiLabel.OutcomeAt | labeling/3_gemini_label.py:416-458 | call `calls + b` decodes batch `b`'s outcome |
| GeminiLabel.Labelled | labeling/3_gemini_label.py:614-627 | one label map per decoded batch, each the three stages applied to that batch's decoded reply |
| GeminiLabel.LabelledKeys | labeling/3_gemini_label.py:614-627 | a labelled batch names exactly its own rows |
| GeminiLabel.LabelledAt | labeling/3_gemini_label.py:614-627 | batch `b`'s labels are its `BatchLabels` |
| GeminiLabel.LabelledAppend | labeling/3_gemini_label.py:601-636 | the labelled batches of a run of groups are those of the first groups followed by those of the next |
| GeminiLabel.RowLabel | labeling/3_gemini_label.py:614-631 | a row ends with the label the three stages give it in the last labelled batch that holds it |
| GeminiLabel.RowUnlabelled | labeling/3_gemini_label.py:629-631 | a row no labelled batch holds keeps its old cell |
| GeminiLabel.RowNamed | labeling/3_gemini_label.py:629-631 | a row that held a label name, or that a labelled batch holds, ends with a label name |
| GeminiLabel.LabelGroup | labeling/3_gemini_label.py:607-631 | the group's rows 50 at a time, one call each: the calls decode `Outcomes` of the batches; the run stops at the first reply that is not a dictionary, else covers every batch; the column is the overlay of the labelled batches on the old one, so rows outside the group are kept and, without a crash, every row of the group gets a label name |
| GeminiLabel.SummaryBatches | labeling/3_gemini_label.py:601-615 | the batches of the distinct non-null summaries in order of first appearance, each group's rows 50 at a time, all naming rows of the sheet |
| GeminiLabel.GroupBatchesNext | labeling/3_gemini_label.py:607-615 | one more group: its batches follow those of the groups before it |
| GeminiLabel.SummaryCover | labeling/3_gemini_label.py:601-615 | a row has a summary iff some batch of the summary branch holds it |
| GeminiLabel.LabelBySummary | labeling/3_gemini_label.py:601-636 | call `b` decodes batch `b` of `SummaryBatches`, each distinct summary's rows 50 at a time; the run stops at the first reply that is not a dictionary; the column is the overlay of the labelled batches, so without a crash every row with a summary ends with a label name, and rows without one are untouched |
| GeminiLabel.Blocks | labeling/3_gemini_label.py:642-648 | `ceil(n / 50)` slices of consecutive rows, each within the sheet |
| GeminiLabel.BlocksCover | labeling/3_gemini_label.py:642-648 | row `p` lies in block `p // 50` and in no other |
| GeminiLabel.LabelAllRows | labeling/3_gemini_label.py:640-667 | call `b` decodes block `b` of 50 consecutive rows; the run stops at the first reply that is not a dictionary; the column is the overlay of the labelled blocks, so without a crash every row ends with a label name |
| GeminiLabel.RunBatches | labeling/3_gemini_label.py:598-648 | the summary batches when there is a summary column, the blocks otherwise; every row they name is a row of the sheet |
| GeminiLabel.RunOptimizedLabeling | labeling/3_gemini_label.py:571-682 | the pool's model name is set; call `b` decodes batch `b` of `RunBatches`; the column is the overlay of the labelled batches on the initial column; without a crash every selected row has a label name, and rows not selected keep their starting cell |
| EnhancedLabel.Head | preprocessing/02_gemini_labeling.py:99 | `text[:k]`: the first `k` characters, or the whole text when it is shorter |
| EnhancedLabel.Tail | preprocessing/02_gemini_labeling.py:100 | `text[-k:]`: the last `k` characters, or the whole text when it is shorter |
| EnhancedLabel.CompressPost | preprocessing/02_gemini_labeling.py:88-133 | a post within the token limit is kept as it is; apart from the model's own summary, the result never exceeds the larger of the limit and 600 tokens |
| EnhancedLabel.CompressPostKeepsEnds | preprocessing/02_gemini_labeling.py:98-101 | between the limit and 4000 tokens the result starts with the post's first 1600 characters and ends with its last 800, three characters apart |
| EnhancedLabel.StanceOfAnswer | preprocessing/02_gemini_labeling.py:183-184 | an answer that strips to nothing is POST_NEUTRAL |
| EnhancedLabel.StanceOfLetter | preprocessing/02_gemini_labeling.py:183-184 | after leading blanks, A or a gives POST_ANTI, C or c gives POST_PRO, any other first character POST_NEUTRAL |
| EnhancedLabel.FirstAnswer | preprocessing/02_gemini_labeling.py:160-196 | the reply of the first attempt that did not raise, none before it; nothing iff every attempt raised |
| EnhancedLabel.Retry | preprocessing/02_gemini_labeling.py:160-196 | the retry loop returns `FirstAnswer` |
| EnhancedLabel.ClassifyStanceEnhanced | preprocessing/02_gemini_labeling.py:155-196 | three failed attempts give POST_NEUTRAL; otherwise the stance of the first answer |
| EnhancedLabel.LabelCommentsEnhanced | preprocessing/02_gemini_labeling.py:379-425 | the prompt build raises, before any attempt, exactly when a comment of the batch is not a string; otherwise the CSV text of the first of three attempts that answered, "" when none did |
| EnhancedLabel.SeparatorAt | preprocessing/02_gemini_labeling.py:437 | the first ',' or '|' at or after `i`, or the end of the line |
| EnhancedLabel.CsvEntry | preprocessing/02_gemini_labeling.py:436-446 | a line with neither ',' nor '|' is skipped |
| EnhancedLabel.CsvEntryOfLine | preprocessing/02_gemini_labeling.py:436-446 | the line the prompt asks for, `id,LABEL`, reads back as that id and label |
| EnhancedLabel.CsvLabelsAt | preprocessing/02_gemini_labeling.py:435-447 | an id is in the result iff some line names it with a valid label, and it gets the label of the last such line |
| EnhancedLabel.ReadCsvLines | preprocessing/02_gemini_labeling.py:435-447 | the loop over the lines computes `CsvLabels` of all of them |
| EnhancedLabel.ParsedCsv | preprocessing/02_gemini_labeling.py:427-448 | an empty reply, as after three failed attempts, gives no label |
| EnhancedLabel.ParseCsv | preprocessing/02_gemini_labeling.py:427-448 | the method computes `ParsedCsv` of the reply |
| EnhancedLabel.NearestFrom | preprocessing/02_gemini_labeling.py:533-538 | the running minimum is at most its start and at most every distance from `a` |
| EnhancedLabel.MinDistance | preprocessing/02_gemini_labeling.py:533-538 | at most 100 and at most every target-to-word distance |
| EnhancedLabel.MinDistanceAttained | preprocessing/02_gemini_labeling.py:533-538 | the minimum is 100 or one of the distances |
| EnhancedLabel.MinDistanceWithin | preprocessing/02_gemini_labeling.py:533-541 | the minimum is at most `k` iff some target starts within `k` characters of some derogatory word |
| EnhancedLabel.NearestLoop | preprocessing/02_gemini_labeling.py:535-538 | the inner loop computes `NearestFrom` |
| EnhancedLabel.ProximityDistance | preprocessing/02_gemini_labeling.py:533-538 | the nested loops compute `MinDistance` |
| EnhancedLabel.RawScores | preprocessing/02_gemini_labeling.py:519-562 | the PHAN_DONG sum is at most 17 and the KHONG_PHAN_DONG sum at most 10; every weight is at least 2, so neither sum is ever 1 |
| EnhancedLabel.CommentScores | preprocessing/02_gemini_labeling.py:509-572 | either the irrelevant scores (0, 0, 1) or KHONG_LIEN_QUAN 0 with one of the two sums at least 2; a non-string scores (0, 0, 1) |
| EnhancedLabel.IrrelevantIffNoRule | preprocessing/02_gemini_labeling.py:565-567 | a string scores as irrelevant iff none of the weighted rules fires on it |
| EnhancedLabel.ProximityBonus | preprocessing/02_gemini_labeling.py:531-544 | with both families matching, KHONG_PHAN_DONG gets 5 when some target is within 20 characters of a derogatory word, 2 otherwise |
| EnhancedLabel.ScoreComment | preprocessing/02_gemini_labeling.py:509-572 | the accumulating method computes `CommentScores` |
| EnhancedLabel.Top | preprocessing/02_gemini_labeling.py:590-591 | the greatest score and the first class that has it, in the order PHAN_DONG, KHONG_PHAN_DONG, KHONG_LIEN_QUAN |
| EnhancedLabel.AmbiguousIffUnscored | preprocessing/02_gemini_labeling.py:602-604 | a comment is flagged iff it scores as irrelevant while its label is not KHONG_LIEN_QUAN |
| EnhancedLabel.RescoredNeverIrrelevant | preprocessing/02_gemini_labeling.py:593-595 | the dominant-score override never writes KHONG_LIEN_QUAN |
| EnhancedLabel.SecondStage | preprocessing/02_gemini_labeling.py:574-606 | the same ids; a changed label is never KHONG_LIEN_QUAN; every flagged row is a labelled batch row that scores as irrelevant |
| EnhancedLabel.SecondStageAt | preprocessing/02_gemini_labeling.py:580-604 | each labelled batch row gets its rescored label and is flagged iff ambiguous; other rows are untouched and unflagged |
| EnhancedLabel.SecondStageClassification | preprocessing/02_gemini_labeling.py:574-606 | the loop computes `SecondStage` over the whole batch |
| EnhancedLabel.RuleOutcome | preprocessing/02_gemini_labeling.py:478-504 | the four rules either keep the label or change it to something other than KHONG_LIEN_QUAN |
| EnhancedLabel.EnhancedOverrides | preprocessing/02_gemini_labeling.py:450-507 | the same ids; a changed label is never KHONG_LIEN_QUAN |
| EnhancedLabel.EnhancedOverridesAt | preprocessing/02_gemini_labeling.py:466-504 | each labelled batch row with a string comment gets `RuleOutcome` of its label; every other entry is unchanged |
| EnhancedLabel.ApplyEnhancedOverrideRules | preprocessing/02_gemini_labeling.py:450-507 | the loop computes `EnhancedOverrides` over the whole batch |
| EnhancedLabel.BatchResult | preprocessing/02_gemini_labeling.py:657-671 | every batch row ends with a label, and only ids of the reply or the batch have one |
| EnhancedLabel.BatchResultAt | preprocessing/02_gemini_labeling.py:657-671 | a batch row the reply left out gets KHONG_LIEN_QUAN; a replied row gets the overrides of its rescored label |
| EnhancedLabel.WriteLabels | preprocessing/02_gemini_labeling.py:673-675 | each labelled id gets its label's name and every other cell is kept |
| EnhancedLabel.Write | preprocessing/02_gemini_labeling.py:674-675 | the cells after one batch's write are the old cells and the batch's labelled ids |
| EnhancedLabel.FillMissingIds | preprocessing/02_gemini_labeling.py:665-671 | the fill loop computes `FillMissing` over the batch |
| EnhancedLabel.FillMissingIs | preprocessing/02_gemini_labeling.py:665-671 | the set-difference loop computes `FillMissing` |
| EnhancedLabel.AllUnscoredUnion | preprocessing/02_gemini_labeling.py:602-604 | flag sets whose rows all score as irrelevant stay so under union |
| EnhancedLabel.LabelEnhancedBatch | preprocessing/02_gemini_labeling.py:651-675 | the batch crashes exactly when one of its comments is not a string (line 380); otherwise the column after it holds the batch result's names over the old cells, and the flags are the rows the second stage flagged |
| EnhancedLabel.WriteCells | preprocessing/02_gemini_labeling.py:673-675 | after one batch's write each cell is a label name, or a cell the batch did not label, as it was |
| EnhancedLabel.WrittenAppend | preprocessing/02_gemini_labeling.py:624-675 | writing two runs of batches is writing the first and then the second over it; the flags add up |
| EnhancedLabel.WrittenLast | preprocessing/02_gemini_labeling.py:673-675 | a row's cell is the name of its label in the last batch that labels it |
| EnhancedLabel.WrittenKept | preprocessing/02_gemini_labeling.py:615-675 | a cell no batch labels keeps its value, and no batch adds a cell it does not label |
| EnhancedLabel.WrittenCells | preprocessing/02_gemini_labeling.py:673-675 | no cell is lost, and every cell is a label name or as it was |
| EnhancedLabel.WrittenNamed | preprocessing/02_gemini_labeling.py:673-675 | a row some batch labels ends as a label name |
| EnhancedLabel.FlaggedAt | preprocessing/02_gemini_labeling.py:602-604 | a row is flagged iff some batch's second stage flagged it |
| EnhancedLabel.BatchCount | preprocessing/02_gemini_labeling.py:650 | `range(0, len(sub_df), 35)` has the least count of starts whose batches of 35 cover the rows |
| EnhancedLabel.BatchRows | preprocessing/02_gemini_labeling.py:651 | `sub_df.iloc[start:start+35]`: rows of the post only |
| EnhancedLabel.BatchOf | preprocessing/02_gemini_labeling.py:650-651 | every row of the post lies in batch `i // 35` |
| EnhancedLabel.Results | preprocessing/02_gemini_labeling.py:650-671 | one result per batch of the post, batch `b` being the batch result of its rows and the answer to call `calls + b` |
| EnhancedLabel.ResultsAt | preprocessing/02_gemini_labeling.py:650-671 | the result of batch `b` is that of its rows and its call |
| EnhancedLabel.BatchFlags | preprocessing/02_gemini_labeling.py:602-657 | the rows a batch flags are rows of that batch that score as irrelevant |
| EnhancedLabel.LabelPostGroup | preprocessing/02_gemini_labeling.py:647-675 | the post's batches crash, at the first batch holding one, exactly when a comment of the post is not a string; otherwise one call per batch of 35, the call count going up by the batch count, the column is the post's batch results written over it in order, and the flags their union |
| EnhancedLabel.PostGroupFacts | preprocessing/02_gemini_labeling.py:647-675 | after a post's batches no cell is lost, every cell is a label name or as it was, every row of the post is named, and every flagged row is a row of the post that scores as irrelevant |
| EnhancedLabel.RowNamed | preprocessing/02_gemini_labeling.py:650-671 | every row of a post is labelled by some batch of it |
| EnhancedLabel.RowFlagged | preprocessing/02_gemini_labeling.py:602-604 | a row flagged by a batch of the post is a row of the post that scores as irrelevant |
| EnhancedLabel.LowerCells | preprocessing/02_gemini_labeling.py:475 | one lowered cell per comment, a string exactly where the comment is one |
| EnhancedLabel.PostRows | preprocessing/02_gemini_labeling.py:626 | the rows whose post equals the given post; a missing post selects nothing, because NaN equals nothing |
| EnhancedLabel.EmptyColumn | preprocessing/02_gemini_labeling.py:615 | every row starts with an empty label |
| EnhancedLabel.FlaggedUnscoredGroup | preprocessing/02_gemini_labeling.py:602-604 | adding one post's flags keeps every flagged row scoring as irrelevant under its post's stance |
| EnhancedLabel.PostsResultsNext | preprocessing/02_gemini_labeling.py:624-675 | a NaN post adds no batch; any other post adds its batches, their calls counted on from all batches before |
| EnhancedLabel.AllPostsFacts | preprocessing/02_gemini_labeling.py:619-676 | after the first `g` posts every row is in the column, every cell is "" or a label name, every row of those posts is named, and every flagged row scores as irrelevant under its post's stance |
| EnhancedLabel.LabelNextPost | preprocessing/02_gemini_labeling.py:624-675 | one post's turn of the loop: it crashes exactly when the post is not NaN and one of its comments is not a string; otherwise the column, the flags and the call count move from those of the posts before it to those after it |
| EnhancedLabel.LabelAllPosts | preprocessing/02_gemini_labeling.py:619-676 | the run crashes exactly when some row with a post has a comment that is not a string; otherwise the label column is the empty column with every distinct post's batch results written over it in order, and the flags their union; every row has a cell, each "" or a label name, every row with a post ends with a valid label, and every flagged row scores as irrelevant |
| EnhancedLabel.RunEnhancedLabelingPipeline | preprocessing/02_gemini_labeling.py:608-695 | as written: the run raises, saving nothing, exactly when some row with a post has a comment that is not a string; otherwise the label column is every batch's result, post by post, written over the empty column, every row with a post gets a valid label, and the returned ambiguity column is 0 everywhere |
| EnhancedLabel.RunEnhancedLabelingPipelineWithFlags | preprocessing/02_gemini_labeling.py:608-695 | as evidently intended: the same crash and the same label column, and the ambiguity column is 1 exactly on the rows some batch's second stage flagged and 0 on all others; each flagged row has a post and scores as irrelevant |
| EnhancedLabel.SecondStageFlagsUnscored | preprocessing/02_gemini_labeling.py:602-604 | a PHAN_DONG reply for a string comment on which no weighted rule fires is flagged by the second stage, the flag the as-written pipeline loses |
| EnhancedLabel.SecondStageFlagsGreeting | preprocessing/02_gemini_labeling.py:602-604 | the concrete case: "xin chao cac ban" answered PHAN_DONG, with no keyword family matching, is flagged |
| EnhancedLabel.Quiet | preprocessing/02_gemini_labeling.py:519-562 | keyword matchers that find nothing, as the source's keyword lists find nothing in a greeting: no weighted rule fires on any text |
| Summarize.SquashNoise | preprocessing/2_summarize_and_prepare.py:379 | every run of `!@#$%^&*()` becomes one space: no noisy character is left, the text never grows, and every character kept is a space or one of the input's |
| Summarize.SquashNoiseQuiet | preprocessing/2_summarize_and_prepare.py:379 | a text with no noisy character is left as it is |
| Summarize.CleanText | preprocessing/2_summarize_and_prepare.py:362-381 | the cleaned text holds no double quote, no line break and no noisy punctuation |
| Summarize.TidyIdempotent | preprocessing/2_summarize_and_prepare.py:376-379 | the replacements after the rewrites change nothing on a text they already produced |
| Summarize.CleanJsonTextBetween | preprocessing/2_summarize_and_prepare.py:612-627 | with "```json" found at i and the next "```" at j, the clean-up keeps the stripped text between them with any other fence removed |
| Summarize.StripWithoutFences | preprocessing/2_summarize_and_prepare.py:624-627 | removing fences from a backquote-free text and stripping again is the same as stripping once |
| Summarize.CleanJsonTextFenced | preprocessing/2_summarize_and_prepare.py:612-627 | a fenced json block with no backquote before it or inside it is recovered exactly, up to surrounding whitespace |
| Summarize.Paired | preprocessing/2_summarize_and_prepare.py:688-706 | strategy 3 builds one result per id match |
| Summarize.RebuildFromMatches | preprocessing/2_summarize_and_prepare.py:695-706 | the loop builds `{"results": ...}` pairing the i-th id match with the i-th unescaped summary match |
| Summarize.PairedRouting | preprocessing/2_summarize_and_prepare.py:521-530 | over distinct posts, the rebuilt reply gives post k a summary iff `id{k+1}` is among the id matches, and that summary is the one paired with such a match; the mapping never raises on it |
| Summarize.PairedMapped | preprocessing/2_summarize_and_prepare.py:521-530 | every rebuilt result is a dictionary, so the mapping loop succeeds on them |
| Summarize.SectionSummary | preprocessing/2_summarize_and_prepare.py:719-731 | a section's summary is empty iff none of its three parts was found |
| Summarize.SectionResult | preprocessing/2_summarize_and_prepare.py:719-734 | a section yields a result iff its summary is not empty |
| Summarize.Sections | preprocessing/2_summarize_and_prepare.py:713-736 | sections 1 .. n-1 give fewer than n results |
| Summarize.SectionsEmpty | preprocessing/2_summarize_and_prepare.py:713-739 | strategy 4 finds nothing iff no section after the first has any of its parts |
| Summarize.SectionStep | preprocessing/2_summarize_and_prepare.py:716-734 | one section extends the results by its item exactly when its summary is not empty |
| Summarize.AddSection | preprocessing/2_summarize_and_prepare.py:716-734 | one round appends `id{i}` with the stripped section summary iff that summary is not empty |
| Summarize.RebuildFromSections | preprocessing/2_summarize_and_prepare.py:713-736 | the loop returns every non-empty section's result, in order |
| Summarize.SuperResilientJsonParser | preprocessing/2_summarize_and_prepare.py:669-739 | the parser returns the first strategy that succeeds (direct parse, parse after fixes, id/summary pairs, sections), or fails as the source's raise |
| Summarize.LeadMap | preprocessing/2_summarize_and_prepare.py:537-562 | the lead matches cover exactly the first min(L, len(batch)) posts |
| Summarize.LeadStep | preprocessing/2_summarize_and_prepare.py:545-560 | lead match i maps post i to its rebuilt summary when the batch has an i-th post |
| Summarize.LastResortShape | preprocessing/2_summarize_and_prepare.py:537-569 | with no lead match every post gets the JSON-error placeholder; otherwise a post gets a summary iff its position (or an equal post's) is below the number of lead matches |
| Summarize.LastResort | preprocessing/2_summarize_and_prepare.py:537-569 | the fallback loop computes the last-resort summaries |
| Summarize.ErrorOutcome | preprocessing/2_summarize_and_prepare.py:572-588 | an exception ends the batch with the blocked placeholder iff its text mentions finish_reason and 2; otherwise the loop goes round again, switching key iff the text says 429 or quota |
| Summarize.AttemptOutcome | preprocessing/2_summarize_and_prepare.py:504-569 | an attempt that finishes only names posts of the batch |
| Summarize.AttemptCovers | preprocessing/2_summarize_and_prepare.py:504-569 | a post left without a summary by a finished attempt implies a recovered text reply, from the cascade or from a last resort with fewer lead matches than posts |
| Summarize.RunAttempt | preprocessing/2_summarize_and_prepare.py:504-569 | one attempt's handling of the reply is the outcome the model defines |
| Summarize.Acquire | preprocessing/2_summarize_and_prepare.py:468-490 | a key is ready whenever a key was allowed at the first scan, and exactly then when no time passes in the pause |
| Summarize.OneAttempt | preprocessing/2_summarize_and_prepare.py:465-588 | when a key is ready the attempt's outcome is the decided reply |
| Summarize.RetriedStep | preprocessing/2_summarize_and_prepare.py:465-588 | one more attempt that goes round again extends the retried prefix |
| Summarize.SummarizeLeaf | preprocessing/2_summarize_and_prepare.py:465-595 | the retry loop ends with nothing when no key is ready, with the first finished attempt's summaries, or with the give-up placeholder for every post after three retries; the result is the retry ending over the attempts' outcomes |
| Summarize.Outcomes | preprocessing/2_summarize_and_prepare.py:465-588 | one outcome per attempt, each the decided reply of that attempt |
| Summarize.PlanBatch | preprocessing/2_summarize_and_prepare.py:441-462 | the batch is halved iff it has more than one post and its prompt is over 4000 tokens; otherwise the batch is one leaf, sent with its own prompt and ids, or a lone post over budget with its first half and "..." |
| Summarize.ProcessBatch | preprocessing/2_summarize_and_prepare.py:431-595 | the summaries name only posts of the batch and are the merge over the leaves sent, in order, later ones winning on a repeated post; one call per leaf |
| SummaryBatch.BatchIdInjective | preprocessing/2_summarize_and_prepare.py:389 | two positions with the same `id{idx+1}` are the same position |
| SummaryBatch.BatchIds | preprocessing/2_summarize_and_prepare.py:388-390 | one id per post, `id1 .. idN` in order |
| SummaryBatch.BatchIdsIndex | preprocessing/2_summarize_and_prepare.py:525-526 | `batch_ids.index(id{k+1})` is k: an id leads back to the post it was given to |
| SummaryBatch.Shorten | preprocessing/2_summarize_and_prepare.py:454 | the cut-down post is its first `keep` characters followed by "..." |
| SummaryBatch.FittedShape | preprocessing/2_summarize_and_prepare.py:393-395 | a post is shown whole iff its estimate is within `MAX_TOKENS // len(batch)`; otherwise its first three quarters are kept; with a share of at least two tokens the cut never lengthens a post |
| SummaryBatch.PromptEntries | preprocessing/2_summarize_and_prepare.py:388-397 | one prompt entry per post |
| SummaryBatch.CreateBatchPrompt | preprocessing/2_summarize_and_prepare.py:383-429 | the ids are `id1 .. idN` and the formatted text is the entries joined by blank lines |
| SummaryBatch.LeavesStep | preprocessing/2_summarize_and_prepare.py:448-462 | a batch of several posts over budget is sent as its two halves split at `len // 2`; any other batch is sent as it is |
| SummaryBatch.LeavesCover | preprocessing/2_summarize_and_prepare.py:448-462 | the batches sent cover the posts exactly once and in order |
| SummaryBatch.LeavesFit | preprocessing/2_summarize_and_prepare.py:448-462 | every batch sent is non-empty and either fits the budget or is a single post |
| SummaryBatch.Target | preprocessing/2_summarize_and_prepare.py:524-527 | a result's target, when it has one, is a position of the batch |
| SummaryBatch.TargetIsId | preprocessing/2_summarize_and_prepare.py:524-527 | with the prompt's own ids, a result names position k iff its id is `id{k+1}` |
| SummaryBatch.MapItems | preprocessing/2_summarize_and_prepare.py:522-528 | a mapping that does not raise names only posts of the batch |
| SummaryBatch.MapItemsStep | preprocessing/2_summarize_and_prepare.py:523-528 | a dictionary result puts its summary (default '') under the post its id names, overriding an earlier one |
| SummaryBatch.LastNaming | preprocessing/2_summarize_and_prepare.py:523-528 | the last result naming position k, present iff some result names it |
| SummaryBatch.MapItemsAt | preprocessing/2_summarize_and_prepare.py:521-530 | over distinct posts, post k gets a summary iff some result names its position, and gets the last such result's summary |
| SummaryBatch.MapItemsRaised | preprocessing/2_summarize_and_prepare.py:523-524 | once a non-dictionary result has made the loop raise, the whole mapping raises |
| SummaryBatch.MappedResults | preprocessing/2_summarize_and_prepare.py:521-530 | a mapping of a decoded reply that does not raise names only posts of the batch |
| SummaryBatch.MapResults | preprocessing/2_summarize_and_prepare.py:521-530 | the mapping loop computes the mapped results |
| SummaryBatch.Uniform | preprocessing/2_summarize_and_prepare.py:592-595 | the fallback dictionary has exactly the batch's posts as keys, each with the same value |
| SummaryBatch.Fallback | preprocessing/2_summarize_and_prepare.py:508-511 | the fallback loop builds that dictionary |
| SummaryBatch.EndingAfter | preprocessing/2_summarize_and_prepare.py:465-595 | after n attempts that go round again, none of them cut, the retry loop ends as it does from attempt n |
| SummaryBatch.MergedAppend | preprocessing/2_summarize_and_prepare.py:459-462 | merging two runs of results is merging each and letting the second win |
| SummaryBatch.MergedOne | preprocessing/2_summarize_and_prepare.py:459-462 | merging one batch's results gives those results |
| SummaryBatch.MergedKeys | preprocessing/2_summarize_and_prepare.py:459-462 | a post is in the merge iff some batch's results have it |
| SummaryBatch.MergedLast | preprocessing/2_summarize_and_prepare.py:459-462 | the merge keeps for each post the value from the last batch that has it |
| SummaryBatch.Sent | preprocessing/2_summarize_and_prepare.py:459-462 | one result per batch sent |
| SummaryBatch.SplitMerged | preprocessing/2_summarize_and_prepare.py:459-462 | `results1.update(results2)` over the halves is the merge over all batches sent, in order |
| SummaryBatch.SentAppend | preprocessing/2_summarize_and_prepare.py:459-460 | the batches of two halves are numbered on from where the first half's end |
| SummaryBatch.LeafMerged | preprocessing/2_summarize_and_prepare.py:441-595 | a batch sent as it is gives its own results |
| SummaryBatch.SentWith | preprocessing/2_summarize_and_prepare.py:459-462 | one result per batch sent, with each batch's retry cut |
| SummaryBatch.SplitMergedWith | preprocessing/2_summarize_and_prepare.py:459-462 | the halves' update is the merge over all batches sent, each with its own cut |
| SummaryBatch.LeafMergedWith | preprocessing/2_summarize_and_prepare.py:441-595 | a batch sent as it is gives its own results under its cut |
| SummaryFiles.Platform | preprocessing/2_summarize_and_prepare.py:866-880 | the platform is one of the five names or "Unknown": the first of facebook, youtube, reddit, tiktok, threads the lower-cased file name contains, in that order |
| SummaryFiles.OutputStem | preprocessing/2_summarize_and_prepare.py:896-898 | the output stem ends with `_summarized`; it is the input stem when that already does, else the stem with the suffix added |
| SummaryFiles.OutputStemIdempotent | preprocessing/2_summarize_and_prepare.py:896-898 | summarising an output file again writes to the same names |
| SummaryFiles.OutputNames | preprocessing/2_summarize_and_prepare.py:900-901 | the spreadsheet is the output stem with `.xlsx`, the comparison text the stem with `_comparison.txt` |
| SummaryFiles.Header | preprocessing/2_summarize_and_prepare.py:810-820 | the comparison text opens with nine lines between two rules of 80 `=`, ending in a blank line |
| SummaryFiles.BatchBounds | preprocessing/2_summarize_and_prepare.py:801-802 | batch b starts after b full batches of three; every batch but the last has three posts and the last ends the list |
| SummaryFiles.SummarizeNext | preprocessing/2_summarize_and_prepare.py:825-845 | one batch's summaries are merged in and its posts listed, numbered on from the previous batch, with what the batch produced |
| SummaryFiles.SummarizeFile | preprocessing/2_summarize_and_prepare.py:801-845 | the merged summaries name only unique posts, and the comparison text is the header followed by one block per post, in order, carrying its summary or the failure marker |
| SummaryFiles.SummaryColumn | preprocessing/2_summarize_and_prepare.py:851-854 | every row with a post gets that post's summary, or '' when none came back; a row without a post gets nothing |
| SummaryFiles.DefaultColumn | preprocessing/2_summarize_and_prepare.py:857-882 | a missing required column is filled row by row: `post_{x+1}`, `comment_{x+1}`, today's date, the platform from the file name, or "" |
| SummaryFiles.DefaultIdsDistinct | preprocessing/2_summarize_and_prepare.py:860-863 | the filled-in post and comment ids are pairwise distinct |
| SummaryFiles.OutputColumns | preprocessing/2_summarize_and_prepare.py:884-893 | the output keeps exactly the existing columns among the desired ones and `label` |
| SummaryFiles.DesiredColumnsShape | preprocessing/2_summarize_and_prepare.py:884-893 | once the required columns are filled in, the output columns are the desired order, with `label` last when present |
| SummaryFiles.SuccessCount | preprocessing/2_summarize_and_prepare.py:924-929 | the success count is at most the number of summaries; it is all of them iff every one succeeded and zero iff none did |
| SummaryFiles.BlockedNotCounted | preprocessing/2_summarize_and_prepare.py:924-929 | the safety-filter placeholder is never counted as a success |
| SummaryFiles.GaveUpNotCounted | preprocessing/2_summarize_and_prepare.py:924-929 | the gave-up placeholder is never counted as a success |
| PostSummarizer.CleanText | labeling/04_post_summarizer.py:119-126 | the cleaned text is the stripped text with the same length, every double quote and line break replaced and every other character kept |
| PostSummarizer.CleanTextIdempotent | labeling/04_post_summarizer.py:119-126 | cleaning a cleaned text changes nothing |
| PostSummarizer.PlanBatch | labeling/04_post_summarizer.py:159-180 | the batch is halved iff it has more than one post and its prompt is over 3000 tokens; otherwise it is one leaf, sent with its own prompt and ids, or a lone post over budget with its first half and "..." |
| PostSummarizer.ExtractJsonFenced | labeling/04_post_summarizer.py:212-222 | a fenced json block with no other backquote in the response is recovered exactly, up to surrounding whitespace |
| PostSummarizer.LastFence | labeling/04_post_summarizer.py:214 | a fence with no backquote after it is what `rfind` finds |
| PostSummarizer.ExtractJsonPlain | labeling/04_post_summarizer.py:212-222 | a response without backquotes is decoded as it is, stripped |
| PostSummarizer.Prefix | labeling/04_post_summarizer.py:247 | `s[:n]` is the longest prefix of s of at most n characters |
| PostSummarizer.AttemptOutcome | labeling/04_post_summarizer.py:209-262 | a finished attempt names only posts of the batch; no attempt switches key on an error; a failed call, a blocked reply or an unreadable text is retried |
| PostSummarizer.AttemptCovers | labeling/04_post_summarizer.py:224-251 | a post left without a summary by a finished attempt implies a decoded text reply; an undecodable reply gives every post the JSON-error dictionary |
| PostSummarizer.RunAttempt | labeling/04_post_summarizer.py:209-251 | one attempt's handling of the reply is the outcome the model defines |
| PostSummarizer.KeyCycle.constructor | labeling/04_post_summarizer.py:27-31 | the cycle starts at the first key with no key configured |
| PostSummarizer.KeyCycle.SetNextKey | labeling/04_post_summarizer.py:107-111 | the key handed out is the one at the cycle's position, the client is configured with it, and the position moves on by one, wrapping round |
| PostSummarizer.RetriedStep | labeling/04_post_summarizer.py:183-262 | one more attempt that goes round again extends the retried prefix |
| PostSummarizer.Outcomes | labeling/04_post_summarizer.py:183-262 | one outcome per attempt, each the decided reply of that attempt |
| PostSummarizer.SummarizeLeaf | labeling/04_post_summarizer.py:183-273 | the retry loop ends with the first finished attempt's summaries, or with the give-up dictionary for every post after three attempts that go round again; each attempt takes the next key |
| PostSummarizer.ProcessBatch | labeling/04_post_summarizer.py:149-273 | the summaries name only posts of the batch and are the merge over the leaves sent, in order, later ones winning on a repeated post; one call per leaf |
| PostSummarizer.FormatSummary | labeling/04_post_summarizer.py:275-288 | `format_summary` renders exactly the false values and the dictionaries, a false value as the failure marker; any other value makes it raise |
| PostSummarizer.FormatSummaryTells | labeling/04_post_summarizer.py:275-288 | a rendered summary opens with the first section iff it renders a non-empty dictionary |
| PostSummarizer.FormatSummaryDefaults | labeling/04_post_summarizer.py:280-288 | a dictionary with none of the three members renders "Không có thông tin" three times |
| PostSummarizer.FormatGaveUp | labeling/04_post_summarizer.py:266-288 | a post whose batch gave up is shown with the give-up note, "Lỗi API" and the unknown verdict |
| PostSummarizer.Header | labeling/04_post_summarizer.py:348-356 | the comparison text opens with seven lines between two rules, ending in a blank line |
| PostSummarizer.MakeBatches | labeling/04_post_summarizer.py:337-340 | the batches are the posts in consecutive chunks of five |
| PostSummarizer.ListBatch | labeling/04_post_summarizer.py:366-382 | the batch's blocks, numbered from `first`, with each post's rendered summary; the loop stops iff some post's summary cannot be rendered |
| PostSummarizer.ListStep | labeling/04_post_summarizer.py:366-382 | a post whose summary renders adds its block after those of the posts before it |
| PostSummarizer.BatchBounds | labeling/04_post_summarizer.py:337-340 | batch b is the slice after b full batches; every batch but the last has five posts and the last ends the list |
| PostSummarizer.SummarizeNext | labeling/04_post_summarizer.py:361-382 | one batch's summaries are merged in and its posts listed, numbered on from the previous batch, unless one cannot be rendered |
| PostSummarizer.ListMerged | labeling/04_post_summarizer.py:363-382 | the text after a batch is that of the posts so far with the merged summaries, unless a merged summary cannot be rendered |
| PostSummarizer.CrashWitness | labeling/04_post_summarizer.py:368-369 | a batch summary that cannot be rendered is one of the merged summaries |
| PostSummarizer.MergeFormattable | labeling/04_post_summarizer.py:363 | merging a batch's renderable summaries keeps every summary renderable |
| PostSummarizer.SummarizePosts | labeling/04_post_summarizer.py:338-382 | the merged summaries name only unique posts; the loop stops only at a summary that cannot be rendered, and otherwise the text is the header and one block per post, in order |
| PostSummarizer.SummaryColumn | labeling/04_post_summarizer.py:384-396 | each row gets its post's rendered summary iff the post was summarised, else nothing |
| PostSummarizer.SuccessCount | labeling/04_post_summarizer.py:414 | the test raises iff some summary is a number, a boolean or null; otherwise the count is at most the number of summaries, and all of them iff every one has a 'nội_dung' |
| PostSummarizer.FallbacksCounted | labeling/04_post_summarizer.py:244-273 | both fallback dictionaries have a 'nội_dung', so the success count counts a batch that gave up or whose reply was not JSON as summarised |
| PostSummarizer.MainBatch | labeling/04_post_summarizer.py:290-419 | unless a summary cannot be rendered, the sheet gets the summary column and the text the header with one block per unique post; the success count comes last and raises on a non-container summary |
| MergeSummary.Run | labeling/05_merge_summary_to_dataset.py:10 | the pattern elements matched from a position end inside the text |
| MergeSummary.MatchAt | labeling/05_merge_summary_to_dataset.py:10 | a match of the block pattern starting at a position ends after it and inside the text |
| MergeSummary.FirstMatch | labeling/05_merge_summary_to_dataset.py:11 | the leftmost match at or after a position is a match of the pattern starting there |
| MergeSummary.FillLastWins | labeling/05_merge_summary_to_dataset.py:13-18 | the dictionary filled from the pairs has exactly their keys, and each key holds the value of its last pair |
| MergeSummary.Entries | labeling/05_merge_summary_to_dataset.py:14-18 | one entry per match |
| MergeSummary.EntriesNext | labeling/05_merge_summary_to_dataset.py:14-18 | one more match adds its stripped original text and summary as the last entry |
| MergeSummary.CollectMatches | labeling/05_merge_summary_to_dataset.py:13-20 | the loop puts each match's stripped original text and summary in the dictionary, in order |
| MergeSummary.ExtractSummaries | labeling/05_merge_summary_to_dataset.py:4-20 | the dictionary comes from the successive non-overlapping matches of the block pattern over the whole text |
| MergeSummary.JoinBlock | preprocessing/2_summarize_and_prepare.py:834-845 | a block's ten lines joined by newlines are the block text the pattern is matched against |
| MergeSummary.MatchBlock | labeling/05_merge_summary_to_dataset.py:10 | a written block is matched where it starts, with the post number and the post and summary padded with newlines as groups, when the post has no `SUMMARY:` and the summary no rule of 80 '=' |
| MergeSummary.ScanBlock | labeling/05_merge_summary_to_dataset.py:11 | the scan from the newline in front of a block finds that block's match and goes on after it |
| MergeSummary.ReadBack | labeling/05_merge_summary_to_dataset.py:10-11 | `findall` on the text the summarisers write gives one match per post, in order, with its number, post and shown text, given a header without `POST ` and readable blocks |
| MergeSummary.StripPaddedText | labeling/05_merge_summary_to_dataset.py:16-17 | stripping a group padded with newlines gives the text stripped |
| MergeSummary.EntriesOfBlocks | labeling/05_merge_summary_to_dataset.py:14-18 | the entry of block i's match is its post and its shown text, both stripped |
| MergeSummary.RoundTrip | labeling/05_merge_summary_to_dataset.py:4-20 | reading back the written text gives a dictionary whose keys are exactly the stripped posts, each with its stripped shown summary unless a later post strips to the same key |
| MergeSummary.CollectBlocks | labeling/05_merge_summary_to_dataset.py:13-18 | the dictionary collected from the blocks' matches maps each stripped post to its stripped summary, the last post winning |
| MergeDataset.Names | labeling/05_merge_summary_to_dataset.py:27 | the column names, one per column in order |
| MergeDataset.Named | labeling/05_merge_summary_to_dataset.py:48 | the columns with a given name all carry it |
| MergeDataset.Get | labeling/05_merge_summary_to_dataset.py:48-52 | a column is read iff exactly one column carries the name, and gives its cells |
| MergeDataset.Replace | labeling/05_merge_summary_to_dataset.py:48 | assigning a column replaces the cells of every column with that name and leaves the others |
| MergeDataset.Rename | labeling/05_merge_summary_to_dataset.py:31-38 | renaming keeps every column's cells and maps its name through the column mapping |
| MergeDataset.MapLabels | labeling/05_merge_summary_to_dataset.py:41-48 | the label column is mapped cell by cell |
| MergeDataset.MapSummaries | labeling/05_merge_summary_to_dataset.py:52 | the summary column holds each post's looked-up summary |
| MergeDataset.NameSet | labeling/05_merge_summary_to_dataset.py:58 | the set of names is that of the column list |
| MergeDataset.CountPresent | labeling/05_merge_summary_to_dataset.py:82 | the number of non-empty summaries is at most the number of rows |
| MergeDataset.KeyRows | labeling/05_merge_summary_to_dataset.py:52 | the rows that get a summary, in increasing order, are exactly those whose post is a string that is a key |
| MergeDataset.LabelCellValues | labeling/05_merge_summary_to_dataset.py:41-48 | 1, 2 and 3 become PHAN_DONG, KHONG_PHAN_DONG, KHONG_LIEN_QUAN; every other value becomes empty |
| MergeDataset.LabelCellCode | labeling/05_merge_summary_to_dataset.py:41-48 | each label's code maps to its name |
| MergeDataset.NewNameValues | labeling/05_merge_summary_to_dataset.py:31-36 | exactly orig_idx, post_raw and comment_raw are renamed, to id, post and comment |
| MergeDataset.NameSetRename | labeling/05_merge_summary_to_dataset.py:38 | the renamed sheet's names are the old names mapped |
| MergeDataset.NamedEmpty | labeling/05_merge_summary_to_dataset.py:58 | no column carries a name iff the name is not among the columns |
| MergeDataset.NamedDistinct | labeling/05_merge_summary_to_dataset.py:58 | with distinct names, at most one column carries each |
| MergeDataset.NamedOne | labeling/05_merge_summary_to_dataset.py:58 | with distinct names, a present name is carried by exactly one column |
| MergeDataset.NamesReplace | labeling/05_merge_summary_to_dataset.py:48 | replacing a column's cells keeps the names |
| MergeDataset.NamedReplace | labeling/05_merge_summary_to_dataset.py:48 | replacing one column leaves the columns of other names |
| MergeDataset.NamedReplaceSame | labeling/05_merge_summary_to_dataset.py:48 | replacing a column gives each column of that name the new cells |
| MergeDataset.GetSet | labeling/05_merge_summary_to_dataset.py:48-52 | after assigning a column, reading it gives the new cells and reading any other column is unchanged |
| MergeDataset.NamesSet | labeling/05_merge_summary_to_dataset.py:52 | assigning a new column adds its name at the end, an existing one keeps the names; distinct names stay distinct |
| MergeDataset.ProjectNames | labeling/05_merge_summary_to_dataset.py:58-59 | projecting on present, distinct names gives exactly those columns in that order |
| MergeDataset.ProjectGet | labeling/05_merge_summary_to_dataset.py:58-59 | a projected column has the cells it had |
| MergeDataset.UpdateFails | labeling/05_merge_summary_to_dataset.py:22-66 | the update fails (the source raises KeyError) iff the renamed sheet has no label or no post column |
| MergeDataset.SetStep | labeling/05_merge_summary_to_dataset.py:48-52 | an assignment keeps the names distinct, adds its name and sets its cells, leaving the other columns |
| MergeDataset.SetTwice | labeling/05_merge_summary_to_dataset.py:48-52 | the label and summary assignments together give both new columns and leave the others |
| MergeDataset.AnnotateColumns | labeling/05_merge_summary_to_dataset.py:48-52 | with label and post present, the annotated sheet has distinct names, the summary column added, the mapped labels and the looked-up summaries |
| MergeDataset.DesiredDistinct | labeling/05_merge_summary_to_dataset.py:55 | the desired order names each column once |
| MergeDataset.ArrangeColumns | labeling/05_merge_summary_to_dataset.py:55-59 | the arranged sheet has the desired columns that exist, in the desired order, each with its cells |
| MergeDataset.UpdateColumns | labeling/05_merge_summary_to_dataset.py:22-66 | on a sheet with label and post, the result has the desired columns that exist after renaming plus summary, in order, with mapped labels and looked-up summaries |
| MergeDataset.CountSummaries | labeling/05_merge_summary_to_dataset.py:82 | the summary count is the number of rows whose post is a key |
| Comparison.BlockLines | preprocessing/2_summarize_and_prepare.py:834-845 | a block has ten lines: the `POST n:` title, the post on the fourth and the summary on the seventh |
| Comparison.ListingAppend | preprocessing/2_summarize_and_prepare.py:825-845 | listing two runs one after the other, the second numbered on, is listing them together |
| Comparison.BlocksAppend | preprocessing/2_summarize_and_prepare.py:825-845 | the blocks of two runs one after the other are the blocks of both |
| Comparison.BlocksSnoc | preprocessing/2_summarize_and_prepare.py:830-845 | the blocks of one more post are the earlier blocks followed by its own |
| Comparison.Lookup | preprocessing/2_summarize_and_prepare.py:832 | `get` finds a value iff the post is a key, and it is that key's value |
| Comparison.Shown | preprocessing/2_summarize_and_prepare.py:830-832 | one shown text per post |
| Comparison.ShownAt | preprocessing/2_summarize_and_prepare.py:832 | post j is shown with what its entry renders to |
| Comparison.ListBatch | preprocessing/2_summarize_and_prepare.py:830-845 | the blocks written for one batch are numbered from `first`, each with what the batch holds for its post |
| Comparison.ShownIgnores | preprocessing/2_summarize_and_prepare.py:827 | summaries for other posts do not change what is shown |
| Comparison.ShownOverrides | preprocessing/2_summarize_and_prepare.py:827 | a batch's own summaries merged over others for other posts are shown as they are |
| Comparison.MergeListing | preprocessing/2_summarize_and_prepare.py:825-845 | the blocks so far with the summaries so far, then the batch with its own, are the blocks of all posts with the merged summaries |
| Comparison.ExtendText | preprocessing/2_summarize_and_prepare.py:825-845 | appending a batch's blocks gives the text of all posts so far with the merged summaries |
| Comparison.MergeKeys | preprocessing/2_summarize_and_prepare.py:827 | the merged summaries name only posts listed so far |
| Comparison.Disjoint | preprocessing/2_summarize_and_prepare.py:801-802 | with distinct posts, no post of the earlier batches is in the next |
| Comparison.ShownAppend | preprocessing/2_summarize_and_prepare.py:830-832 | what is shown for two runs is what is shown for each |
| Cleaning.RemoveVnEmoticons | preprocessing/01_first_clean.py:39-62 | a non-string cell comes back unchanged; a string loses characters only: what is left is a subsequence of it |
| Cleaning.Delete | preprocessing/01_first_clean.py:60 | one `re.sub` of an emoticon pattern with '' never lengthens the text |
| Cleaning.DeleteAll | preprocessing/01_first_clean.py:59-60 | the substitutions in turn never lengthen the text |
| Cleaning.DeleteDeletes | preprocessing/01_first_clean.py:59-60 | one `re.sub` of an emoticon pattern with '' leaves a subsequence of its input |
| Cleaning.DeleteAllDeletes | preprocessing/01_first_clean.py:59-60 | the ten substitutions in turn leave a subsequence of the input |
| Cleaning.DeleteRunLeavesNone | preprocessing/01_first_clean.py:46-55 | after a run pattern such as `:[)]+` is deleted, no match of it is left anywhere |
| Cleaning.DeleteStartsWith | preprocessing/01_first_clean.py:46-55 | what deleting a run pattern leaves starts with the pattern's tail character only when the input did, without a match at its start |
| Cleaning.ExactNotIdempotent | preprocessing/01_first_clean.py:48 | deleting `:((` can create a new match: ":(:(((" becomes ":((" |
| Cleaning.DeleteMarkFree | preprocessing/01_first_clean.py:46-60 | a pattern whose matches start with ':' or '=' leaves a text without either unchanged |
| Cleaning.DeleteAllMarkFree | preprocessing/01_first_clean.py:59-60 | the substitutions in turn leave such a text unchanged |
| Cleaning.RemoveVnEmoticonsMarkFree | preprocessing/01_first_clean.py:39-62 | a string without ':' or '=' comes back unchanged, since every one of the ten emoticons starts with one of them |
| Cleaning.Squeeze | preprocessing/01_first_clean.py:118 | `re.sub(r'\s+', ' ', s)` leaves only single spaces as whitespace, is empty iff its input is, and starts with whitespace iff its input does |
| Cleaning.SqueezedSlice | preprocessing/01_first_clean.py:118 | a stretch of a squeezed text is squeezed |
| Cleaning.LowerSpace | preprocessing/01_first_clean.py:121 | lowercasing keeps whitespace, unchanged, where it is |
| Cleaning.SqueezedLower | preprocessing/01_first_clean.py:118-121 | lowercasing a squeezed text keeps it squeezed |
| Cleaning.StripSqueezed | preprocessing/01_first_clean.py:118 | stripping a squeezed text keeps it squeezed |
| Cleaning.TidyTidied | preprocessing/01_first_clean.py:118-121 | the tail of `minimal_clean` leaves single inner spaces, none at either end, and lower case |
| Cleaning.Tidy | preprocessing/01_first_clean.py:118-121 | the squeezed, stripped, lowercased text is its own lowercase |
| Cleaning.SqueezeKeeps | preprocessing/01_first_clean.py:118 | squeezing keeps every non-whitespace character, in order |
| Cleaning.SqueezeWords | preprocessing/01_first_clean.py:118 | squeezing changes no word: `split()` gives the same words before and after |
| Cleaning.StripKeeps | preprocessing/01_first_clean.py:118 | stripping removes whitespace only |
| Cleaning.LowerKeeps | preprocessing/01_first_clean.py:121 | lowercasing commutes with dropping whitespace |
| Cleaning.TidyKeeps | preprocessing/01_first_clean.py:118-121 | the tail's non-whitespace characters are the input's, lowered, in order |
| Cleaning.MinimalCleanKeeps | preprocessing/01_first_clean.py:64-123 | the non-whitespace characters of a cleaned string are those the rewrites and the emoticon step leave, lowered, in order |
| Cleaning.MinimalClean | preprocessing/01_first_clean.py:64-123 | a non-string becomes ""; a string comes out with single inner spaces, none at either end, in lower case |
| MinimalClean.Comments | preprocessing/01_first_clean.py:167-170 | the comment column, one cell per row |
| MinimalClean.CleanRows | preprocessing/01_first_clean.py:156-162 | every row's post and comment are cleaned, row by row |
| MinimalClean.KeepIndices | preprocessing/01_first_clean.py:166-171 | the loop keeps exactly the positions of the comments that pass the test, in order |
| MinimalClean.CleanData | preprocessing/01_first_clean.py:133-178 | the output is the cleaned rows whose comment passes the test, in order |
| MinimalClean.KeepsCleaned | preprocessing/01_first_clean.py:170 | a cleaned comment stays iff it is longer than three characters or holds a special pattern |
| MinimalClean.CleanDataKept | preprocessing/01_first_clean.py:133-178 | no row is added; every kept comment is tidied and long enough or special; the kept rows are the cleaned rows at increasing positions |
| MinimalClean.CleanDataDropped | preprocessing/01_first_clean.py:166-179 | the kept and the dropped rows together are all the rows |
| MinimalClean.MissingColumnKeepsNone | preprocessing/01_first_clean.py:169-170 | a sheet without a comment column keeps no row |
| FirstClean.Meaningful | preprocessing/1_first_clean.py:606-610 | the meaningful words are among the words |
| FirstClean.WordCount | preprocessing/1_first_clean.py:597-612 | a string has at most as many meaningful words as words; anything else has none |
| FirstClean.MeaningfulAppend | preprocessing/1_first_clean.py:606-610 | the filter works word by word |
| FirstClean.CountWords | preprocessing/1_first_clean.py:597-612 | the loop counts the meaningful words |
| FirstClean.HasWordCharAppend | preprocessing/1_first_clean.py:609 | a concatenation holds a letter or digit iff one of its parts does |
| FirstClean.MeaningfulNone | preprocessing/1_first_clean.py:606-610 | no word is meaningful iff the words hold no letter or digit |
| FirstClean.KeepWordChar | preprocessing/1_first_clean.py:603-609 | the non-whitespace characters hold a letter or digit iff some non-whitespace character is one |
| FirstClean.WordCountZero | preprocessing/1_first_clean.py:597-612 | a string counts no word iff none of its non-whitespace characters is a letter or digit of the class |
| FirstClean.RemovalReason | preprocessing/1_first_clean.py:614-630 | the reason is "Other reason" iff the comment is a string of more than three meaningful words |
| FirstClean.ShortFilter | preprocessing/1_first_clean.py:438-451 | the loop shares the rows out between kept and removed by the test, each in order |
| FirstClean.SortRow | preprocessing/1_first_clean.py:441-451 | one more row joins the kept or the removed rows |
| FirstClean.ShortStep | preprocessing/1_first_clean.py:441-451 | after each row the kept and removed rows are those passing and failing the test so far |
| FirstClean.Stays | preprocessing/1_first_clean.py:443-446 | a row stays iff its comment is a string with more than three meaningful words or a special pattern |
| FirstClean.SortedFacts | preprocessing/1_first_clean.py:435-467 | the kept rows are exactly those passing the test, the removed exactly the others, both in order and together all rows; every removed row gets one of the specific reasons |
| FirstClean.FilterLong | preprocessing/1_first_clean.py:107-178 | the kept rows are exactly those within the word limit and the removed exactly those over it, in order; without a comment column nothing is removed |
| FirstClean.Threshold | preprocessing/1_first_clean.py:388-411 | a limit read from the typed text is never below its floor |
| FirstClean.ThresholdOfNumber | preprocessing/1_first_clean.py:395-396 | typing a number uses that number, or the floor when it is below it |
| FirstClean.ThresholdOfDigits | preprocessing/1_first_clean.py:395-396 | a digit-led text that `int` reads as v gives v raised to the floor |
| FirstClean.NotSkipWord | preprocessing/1_first_clean.py:390 | a text starting with a digit is no skip word |
| FirstClean.PriorityCap | preprocessing/1_first_clean.py:233-244 | a cap on keyword comments is set only by strategy "2", and is at least 1 |
| FirstClean.PriorityCount | preprocessing/1_first_clean.py:254-268 | a post has at most as many keyword comments as comments |
| FirstClean.PriorityKept | preprocessing/1_first_clean.py:274-284 | a post keeps at most its keyword comments, all of them without a cap, else the smaller of the two |
| FirstClean.PostKept | preprocessing/1_first_clean.py:253-310 | a post within the limit keeps all its comments; one over it keeps its kept keyword comments and as many others as the remaining slots allow |
| FirstClean.KeywordsSurvive | preprocessing/1_first_clean.py:284-293 | without a cap every keyword comment survives, even past the limit |
| FirstClean.KeptCounts | preprocessing/1_first_clean.py:253-310 | one kept count per post, what that post keeps |
| FirstClean.BalanceStep | preprocessing/1_first_clean.py:253-317 | one more post adds its kept count and its removed comments to the totals |
| FirstClean.BalancePosts | preprocessing/1_first_clean.py:180-342 | each post keeps what it keeps; kept and removed comments add up to all comments; processed and unchanged posts add up to all posts |
| Dates.Ddmmyyyy | scraping/reddit/ScrapeRedditComments.js:75-80 | a printed day is the two-digit day, a '-', then the month and year |
| Dates.FormatDate | scraping/reddit/ScrapeRedditComments.js:27-87 | an undefined or null date prints "No date" |
| Dates.DashedSplitsInTwo | scraping/reddit/ScrapeRedditComments.js:30-32 | a text containing '-' splits into at least two parts, so the one-part branch is never taken |
| Dates.SplitParts | scraping/reddit/ScrapeRedditComments.js:31 | splitting dash-joined parts without dashes of their own gives the parts back |
| Dates.DashAfter | scraping/reddit/ScrapeRedditComments.js:30 | the first '-' of `a-b` is the one after `a` when `a` has none |
| Dates.ThreeParts | scraping/reddit/ScrapeRedditComments.js:36-37 | "a-b-c" becomes "c-b-a" |
| Dates.ThreePartsTwice | scraping/reddit/ScrapeRedditComments.js:36-37 | reordering a three-part date twice gives it back |
| Dates.TwoParts | scraping/reddit/ScrapeRedditComments.js:34-35 | "a-b" becomes "b-a-" followed by the current year |
| Dates.PlainUnchanged | scraping/reddit/ScrapeRedditComments.js:82 | a text with neither '-' nor "ago" comes back as it is |
| Dates.FormatAgo | scraping/reddit/ScrapeRedditComments.js:49-80 | an undashed text with "ago" in any case goes to the relative-time handling |
| Dates.AgoCounted | scraping/reddit/ScrapeRedditComments.js:49-80 | an "ago" text read as v of a unit prints the day v units back from now |
| Dates.NumberAgo | scraping/reddit/ScrapeRedditComments.js:49-80 | a number followed by an undashed text with "ago" moves the date back that many units of the branch the text selects |
| Dates.DaysAgoIsSeconds | scraping/reddit/ScrapeRedditComments.js:52-54 | every "ago" text with an 's' counts seconds: "n days ago" moves the date back n seconds |
| Dates.CompactDaysAgo | scraping/reddit/ScrapeRedditComments.js:61-63 | "nd ago" moves the date back n days |
| Dates.DaysUnit | scraping/reddit/ScrapeRedditComments.js:52-63 | without 's', 'm' or 'h' after the number, a 'd' picks the days branch |
| Dates.PrintedHasDash | scraping/reddit/ScrapeRedditComments.js:80 | every printed day contains '-', so a reformatted date takes the dashed branch |
| Csv.Escape | scraping/reddit/ScrapeRedditComments.js:23-25 | doubling the quotes never shortens a value |
| Csv.Cell | scraping/threads/ScrapThreadsComments.js:762-770 | a missing value prints as nothing, any other as its quoted text |
| Csv.QuoteAll | scraping/reddit/ScrapeRedditComments.js:406 | every field of a row is quoted, in order |
| Csv.ReadEscaped | scraping/tiktok/src/ScrapeTikTokComments.py:60-63 | the reader's quoted-field state gives back the value whose quotes were doubled, up to the closing quote |
| Csv.ReadQuoted | scraping/tiktok/src/ScrapeTikTokComments.py:60-63 | a quoted value reads back as the value, leaving what follows |
| Csv.ReadRecord | scraping/tiktok/src/ScrapeTikTokComments.py:60-63 | a printed row reads back as its fields, leaving the next rows |
| Csv.ReadRecords | scraping/tiktok/src/ScrapeTikTokComments.py:60-63 | `csv.reader` gets back every printed row, in order, with every value as it was |
| Csv.QuoteInjective | scraping/reddit/ScrapeRedditComments.js:23-25 | two values that quote alike are equal |
| Csv.ReadHeader | scraping/tiktok/src/ScrapeTikTokComments.py:60-61 | the header, names joined by ',' without quotes, reads back as the names |
| Csv.ReadSheet | scraping/tiktok/src/ScrapeTikTokComments.py:60-66 | reading a printed sheet gets back the header names and then every row as it was |
| Patience.RunningPrefixes | scraping/threads/ScrapThreadsComments.js:735-752 | the loop keeps going iff the counter was positive after every round so far |
| Patience.Idle | scraping/threads/ScrapThreadsComments.js:735-752 | the rounds without progress at the end are at most all the rounds |
| Patience.IdleRounds | scraping/threads/ScrapThreadsComments.js:745-752 | the last idle rounds made no progress |
| Patience.RemainingIdle | scraping/threads/ScrapThreadsComments.js:745-752 | the counter is its base less the idle rounds since the last progress |
| Patience.Continue | scraping/tiktok/src/ScrapeTikTokComments.js:142-150 | after one more round the counter is the reset value after progress and one less otherwise, and the loop goes on iff it is positive |
| Patience.Count | scraping/tiktok/src/ScrapeTikTokComments.js:170-174 | the loop body keeps the counter equal to the counted value |
| Patience.CountStart | scraping/tiktok/src/ScrapeTikTokComments.js:131 | before the first round the counter is its start |
| Patience.StopsExactly | scraping/tiktok/src/ScrapeTikTokComments.js:133-156 | the loop stops exactly when the idle rounds since the last progress reach the value the counter came back to, and not earlier |
| Patience.StopsIdle | scraping/tiktok/src/ScrapeTikTokComments.js:133-156 | a stopped loop's last `reset` rounds made no progress, and if none made any it ran exactly `start` rounds |
| Patience.SeenLast | scraping/threads/ScrapThreadsComments.js:735-752 | past the last observation the page shows the same thing |
| Frames.DistinctBefore | preprocessing/2_summarize_and_prepare.py:779 | in a distinct sequence the last element is not among those before it |
| Frames.Unique | preprocessing/2_summarize_and_prepare.py:779 | `unique()` has no repeats, keeps every value and adds none |
| Frames.IndexOf | preprocessing/2_summarize_and_prepare.py:525-526 | `index` finds the first position holding the value, and None means the value is absent |
| Frames.PositionsOf | labeling/3_gemini_label.py:610 | the rows of `df[df[col] == v]` are exactly the positions holding v, in order |
| Frames.Where | preprocessing/01_first_clean.py:167-171 | the selected rows are positions of the sheet |
| Frames.WhereFacts | preprocessing/01_first_clean.py:167-171 | the selected rows are exactly those meeting the test, in order |
| Frames.WherePartition | preprocessing/1_first_clean.py:438-451 | the rows meeting a test and those failing it are all the rows |
| Frames.WhereStep | preprocessing/01_first_clean.py:168-171 | one more row is selected iff it meets the test |
| Frames.Indices | preprocessing/01_first_clean.py:177 | `reset_index` numbers the rows from 0 |
| Frames.Take | preprocessing/01_first_clean.py:174 | `df.loc[keep_indices]` gives the rows at those positions, in order |
| Frames.Chunks | preprocessing/2_summarize_and_prepare.py:801-802 | every batch is non-empty and at most the batch size |
| Frames.ChunksCover | preprocessing/2_summarize_and_prepare.py:801-802 | the batches cover the list once, in order |
| Frames.ChunksCount | preprocessing/2_summarize_and_prepare.py:782 | the number of batches is the ceiling of the list length over the batch size |
| Frames.ChunksFull | preprocessing/2_summarize_and_prepare.py:801-802 | every batch but the last is full |
| Frames.ChunkAt | preprocessing/2_summarize_and_prepare.py:801-802 | batch b is the slice from b times the size, cut at the list's end |
| Frames.Present | preprocessing/2_summarize_and_prepare.py:779 | `dropna()` keeps exactly the present values |
| Frames.SelectMembers | preprocessing/2_summarize_and_prepare.py:892 | the kept columns are the desired ones that exist, without repeats when the desired ones have none |
| Frames.SelectAll | preprocessing/2_summarize_and_prepare.py:892 | when every desired column exists, all are kept in order |
| Frames.SelectAppend | preprocessing/2_summarize_and_prepare.py:892 | the selection works piece by piece |
| Frames.SelectAroundOne | preprocessing/2_summarize_and_prepare.py:885-892 | around one optional column whose neighbours all exist, the selection is those neighbours with the column in between iff it exists |
| Text.FindFrom | preprocessing/2_summarize_and_prepare.py:615-616 | `find` returns the first occurrence at or after the start, and None means there is none |
| Text.LastBelow | preprocessing/2_summarize_and_prepare.py:623 | `rfind` returns the last occurrence, and None means there is none |
| Text.StripBy | preprocessing/01_first_clean.py:170 | `strip()` leaves no white space at either end and removes only leading and trailing white space |
| Text.StripByIdempotent | preprocessing/01_first_clean.py:118 | stripping twice is stripping once |
| Text.StripPadded | preprocessing/1_first_clean.py:603 | white space around a text with none at its ends strips back to that text |
| Text.StripAround | preprocessing/1_first_clean.py:603 | white space added around a text does not change what it strips to |
| Text.Lower | preprocessing/01_first_clean.py:121 | `lower()` keeps the length and lowers each character on its own |
| Text.LowerIdempotent | preprocessing/01_first_clean.py:121 | lowering twice is lowering once |
| Text.LowerChar | preprocessing/01_first_clean.py:121 | lowering a character keeps it an ASCII digit exactly when it was one |
| Text.Upper | preprocessing/02_gemini_labeling.py:442 | `upper()` keeps the length and raises each character on its own |
| Text.SplitOn | scraping/reddit/ScrapeRedditComments.js:31 | `split` always gives at least one piece |
| Text.JoinSplitOn | scraping/reddit/ScrapeRedditComments.js:31 | joining the pieces back with the separator gives the text |
| Text.SplitOnFound | scraping/reddit/ScrapeRedditComments.js:31 | the first piece ends at the first separator and the rest is the split of what follows it |
| Text.SplitOnPiecesFree | scraping/reddit/ScrapeRedditComments.js:31 | no piece contains the separator |
| Text.SplitAtFirst | scraping/reddit/ScrapeRedditComments.js:306-308 | `a + c + b` splits on c into `a` then the pieces of `b` when `a` has no c |
| Text.SplitLastPiece | scraping/reddit/ScrapeRedditComments.js:306-308 | the last piece of such a split is `b` when `b` has no c |
| Text.ReplaceAll | scraping/reddit/ScrapeRedditComments.js:24 | replacing every occurrence is splitting on it and joining with the replacement |
| Text.ReplaceChar | scraping/reddit/ScrapeRedditComments.js:24 | replacing one character keeps the length and changes exactly that character, everywhere |
| Text.SplitLines | preprocessing/02_gemini_labeling.py:435 | no line from `splitlines()` holds a line break |
| Text.WordsBy | preprocessing/1_first_clean.py:603 | `split()` gives non-empty words without white space |
| Text.WordsCoverText | preprocessing/1_first_clean.py:603 | the words, put together, are the text without its white space |
| Text.NatToString | scraping/reddit/ScrapeRedditComments.js:35 | `String(n)` is non-empty ASCII digits without a leading zero |
| Text.NatToStringValue | scraping/reddit/ScrapeRedditComments.js:35 | the printed digits read back as the number |
| Text.NatToStringInjective | scraping/reddit/ScrapeRedditComments.js:35 | two numbers that print alike are equal |
| Text.PyInt | preprocessing/1_first_clean.py:395 | `int()` accepts only a text that is non-empty after stripping |
| Text.PyIntOfNat | preprocessing/1_first_clean.py:395 | `int(str(n))` is n |
| Text.JsParseInt | scraping/reddit/ScrapeRedditComments.js:50 | `parseInt` of an empty text is NaN |
| Text.JsParseIntDigits | scraping/reddit/ScrapeRedditComments.js:50 | a text that starts with digits `parseInt`s to the value of those digits, whatever follows |
| Text.JsParseIntOfNat | scraping/reddit/ScrapeRedditComments.js:50 | `parseInt` of a printed number followed by a non-digit is that number |
| Text.Pad2 | scraping/reddit/ScrapeRedditComments.js:76-77 | `padStart(2, '0')` gives at least two ASCII digits |
| ThreadsScraper.Units | scraping/threads/ScrapThreadsComments.js:190-206 | a character is one UTF-16 code unit below U+10000 and two above |
| ThreadsScraper.Utf16 | scraping/threads/ScrapThreadsComments.js:190-206 | a string has at least as many code units as characters |
| ThreadsScraper.IdInput | scraping/threads/ScrapThreadsComments.js:236-241 | the hashed text holds at least the three '|' separators |
| ThreadsScraper.Head | scraping/threads/ScrapThreadsComments.js:237 | `substring(0, 100)` is the first 100 code units, or all of a shorter text |
| ThreadsScraper.CommentId | scraping/threads/ScrapThreadsComments.js:233-248 | an id is "tc_" and 32 hex digits, 35 characters |
| ThreadsScraper.CreateCommentId | scraping/threads/ScrapThreadsComments.js:233-248 | the method computes the id of the author, text and timestamp |
| ThreadsScraper.IdOfTrimmed | scraping/threads/ScrapThreadsComments.js:236-238 | padding around the author, the comment or the timestamp does not change the id |
| ThreadsScraper.IdOfFirstHundred | scraping/threads/ScrapThreadsComments.js:237 | comments that agree on their first 100 code units after trimming get the same id |
| ThreadsScraper.FormatDateTime | scraping/threads/ScrapThreadsComments.js:21-36 | an empty attribute gives '', and an unparsable one comes back unchanged |
| ThreadsScraper.RemoveFirst | scraping/threads/ScrapThreadsComments.js:670-671 | `replace(username, '')` removes one occurrence when there is one and changes nothing otherwise |
| ThreadsScraper.Candidates | scraping/threads/ScrapThreadsComments.js:661-685 | each element gives the comment built from its username, text and timestamp, in page order |
| ThreadsScraper.Collect | scraping/threads/ScrapThreadsComments.js:687-704 | collecting adds at most one comment per candidate |
| ThreadsScraper.Scraper.constructor | scraping/threads/ScrapThreadsComments.js:436 | the comments array starts empty |
| ThreadsScraper.Scraper.ExtractCommentData | scraping/threads/ScrapThreadsComments.js:657-709 | the array becomes the collection of the page's candidates, and the returned count is the number added |
| ThreadsScraper.Extract | scraping/threads/ScrapThreadsComments.js:661-685 | one element gives its candidate |
| ThreadsScraper.CollectAppends | scraping/threads/ScrapThreadsComments.js:697-704 | collecting only appends, and each appended comment has text and comes from a candidate |
| ThreadsScraper.CollectDistinct | scraping/threads/ScrapThreadsComments.js:688-697 | stored comments stay pairwise different in author, text or date, non-empty, and carry their own ids |
| ThreadsScraper.CandidatesIdentified | scraping/threads/ScrapThreadsComments.js:684 | every candidate carries the id of its own fields |
| ThreadsScraper.CollectCovers | scraping/threads/ScrapThreadsComments.js:688-704 | every candidate with text has a stored comment with the same author, text and date |
| ThreadsScraper.CollectCovered | scraping/threads/ScrapThreadsComments.js:694 | candidates that all have stored duplicates add nothing |
| ThreadsScraper.CollectIdempotent | scraping/threads/ScrapThreadsComments.js:694 | extracting the same elements twice stores nothing more the second time |
| ThreadsScraper.SettledNext | scraping/threads/ScrapThreadsComments.js:735-752 | once the last page view has been extracted, further rounds keep the list |
| ThreadsScraper.SettledByCollect | scraping/threads/ScrapThreadsComments.js:694 | a list that collecting some candidates leaves alone stays so after more of the same |
| ThreadsScraper.Totals | scraping/threads/ScrapThreadsComments.js:740 | one total is logged per round |
| ThreadsScraper.Flags | scraping/threads/ScrapThreadsComments.js:743 | one progress flag per round |
| ThreadsScraper.Round | scraping/threads/ScrapThreadsComments.js:736-752 | a round extracts the current view, logs the total, and reports progress iff the list grew; past the last view it makes none |
| ThreadsScraper.LoadedNext | scraping/threads/ScrapThreadsComments.js:736-752 | the specification side of a round keeps what the loop maintains |
| ThreadsScraper.TotalsNext | scraping/threads/ScrapThreadsComments.js:740 | one more round appends its total |
| ThreadsScraper.FlagsNext | scraping/threads/ScrapThreadsComments.js:743 | one more round appends whether the total grew |
| ThreadsScraper.Scrape | scraping/threads/ScrapThreadsComments.js:436-752 | the loop ends with the comments of its rounds, stopped by a budget of 3 that progress resets to 3 |
| ThreadsScraper.StopsAfterThreeIdle | scraping/threads/ScrapThreadsComments.js:437-752 | the loop ends right after the third round in a row without progress, and not before |
| ThreadsScraper.ScrapedFacts | scraping/threads/ScrapThreadsComments.js:657-752 | after any number of rounds the comments are distinct, non-empty and identified, and each round only appends |
| ThreadsScraper.CollectFacts | scraping/threads/ScrapThreadsComments.js:687-704 | one collection keeps distinct, non-empty, identified comments and the old ones as a prefix |
| ThreadsScraper.ScrapedIds | scraping/threads/ScrapThreadsComments.js:233-248 | every stored id is "tc_" and the MD5 hex of its own author, text and date |
| ThreadsScraper.Rows | scraping/threads/ScrapThreadsComments.js:775-784 | one row of six values per comment, in order |
| ThreadsScraper.GenerateCsv | scraping/threads/ScrapThreadsComments.js:768-789 | the text is the header line then one quoted line per comment |
| ThreadsScraper.RowLine | scraping/threads/ScrapThreadsComments.js:775-786 | each comment adds its own quoted line |
| ThreadsScraper.HeaderPlain | scraping/threads/ScrapThreadsComments.js:770-771 | the header names need no quotes |
| ThreadsScraper.CsvReadsBack | scraping/threads/ScrapThreadsComments.js:768-789 | reading the printed text with `csv.reader`, without the converter's rewrite of line breaks, gives the header and then every comment's six values |
| Md5.CycleOf | scraping/threads/ScrapThreadsComments.js:97-172 | a cycle gives four words |
| Md5.Cycle | scraping/threads/ScrapThreadsComments.js:97-172 | `md5cycle` overwrites the state array with the 64 steps of section 3.4 of RFC 1321 added to the old state |
| Md5.CycleAfter | scraping/threads/ScrapThreadsComments.js:168-171 | the new state is each old word plus the matching local, modulo 2^32 |
| Md5.Store | scraping/threads/ScrapThreadsComments.js:168-171 | the four assignments write the four sums |
| Md5.BlockWords | scraping/threads/ScrapThreadsComments.js:174-180 | a block is sixteen words |
| Md5.Words | scraping/threads/ScrapThreadsComments.js:176-178 | word v packs code units 4v to 4v + 3, lowest first |
| Md5.Md5Blk | scraping/threads/ScrapThreadsComments.js:174-180 | `md5blk` fills its array with the words of the block |
| Md5.TailFill | scraping/threads/ScrapThreadsComments.js:201-204 | the tail stays sixteen words while code units are ORed in |
| Md5.Marked | scraping/threads/ScrapThreadsComments.js:206 | the marked tail is sixteen words |
| Md5.TailBlocks | scraping/threads/ScrapThreadsComments.js:206-214 | a remainder above 55 units takes two final blocks, otherwise one |
| Md5.FullBlocks | scraping/threads/ScrapThreadsComments.js:195-197 | the first loop compresses m blocks of sixteen words |
| Md5.Blocks | scraping/threads/ScrapThreadsComments.js:190-216 | every compressed block is sixteen words |
| Md5.BlockCount | scraping/threads/ScrapThreadsComments.js:190-216 | `md51` compresses `(n + 8) / 64 + 1` blocks, as section 3.1 of RFC 1321 pads |
| Md5.Compress | scraping/threads/ScrapThreadsComments.js:190-216 | the state stays four words |
| Md5.Digest | scraping/threads/ScrapThreadsComments.js:190-216 | the digest is four words |
| Md5.CompressSnoc | scraping/threads/ScrapThreadsComments.js:195-197 | one more block is one more cycle |
| Md5.Md51 | scraping/threads/ScrapThreadsComments.js:190-216 | `md51` returns the digest of the code units |
| Md5.LongTail | scraping/threads/ScrapThreadsComments.js:208-215 | with over 55 remaining units, cycling on the marked tail, clearing it, writing the bit length into word 14 and cycling again leaves the digest |
| Md5.ShortTail | scraping/threads/ScrapThreadsComments.js:213-215 | with at most 55 remaining units, writing the bit length into word 14 and one cycle leave the digest |
| Md5.FullLoop | scraping/threads/ScrapThreadsComments.js:195-197 | the first loop leaves i one block past the last full one and the state compressed over every full block |
| Md5.Absorb | scraping/threads/ScrapThreadsComments.js:196 | one turn compresses one more full block |
| Md5.DivBlocks | scraping/threads/ScrapThreadsComments.js:195-199 | the loop runs `n / 64` times |
| Md5.FillTail | scraping/threads/ScrapThreadsComments.js:200-206 | the tail array is fresh and holds the remaining code units and the 0x80 marker |
| Md5.Clear | scraping/threads/ScrapThreadsComments.js:210 | the clearing loop zeroes all sixteen words |
| Md5.CompressTwo | scraping/threads/ScrapThreadsComments.js:208-215 | two more blocks are two more cycles |
| Md5.HexDigit | scraping/threads/ScrapThreadsComments.js:223 | the digit written for a value below 16 is a lower-case hex digit |
| Md5.ToString16 | scraping/threads/ScrapThreadsComments.js:223 | `toString(16)` writes hex digits, at most two for a byte |
| Md5.PadStart2 | scraping/threads/ScrapThreadsComments.js:223 | `padStart(2, '0')` makes a text of at most two characters exactly two |
| Md5.ByteOf | scraping/threads/ScrapThreadsComments.js:223 | `(w >>> j) & 0xff` is below 256 |
| Md5.ByteHex | scraping/threads/ScrapThreadsComments.js:223 | a byte prints as two hex digits |
| Md5.WordHex | scraping/threads/ScrapThreadsComments.js:222-224 | a word prints as eight hex digits |
| Md5.Hex | scraping/threads/ScrapThreadsComments.js:218-228 | a state prints as eight hex digits per word |
| Md5.HexMd5 | scraping/threads/ScrapThreadsComments.js:218-228 | `hex_md5` returns the hex of the digest, 32 lower-case hex digits |
| Md5.Append | scraping/threads/ScrapThreadsComments.js:221-226 | one more word appends its hex |
| Md5.WordLoop | scraping/threads/ScrapThreadsComments.js:222-224 | the inner loop writes the word's four bytes, lowest first |
| Md5.HexSnoc | scraping/threads/ScrapThreadsComments.js:218-228 | the hex of a longer state is the hex of the shorter one followed by the new word's |
| Md5.WordPrefixFull | scraping/threads/ScrapThreadsComments.js:222-224 | after all 32 bits the inner loop has the word's hex |
| TikTokScraper.Changes | scraping/tiktok/src/ScrapeTikTokComments.js:141 | one change flag per round |
| TikTokScraper.ChangesAt | scraping/tiktok/src/ScrapeTikTokComments.js:141 | round r's flag says whether the count after its scroll differs from the one before |
| TikTokScraper.StillAfter | scraping/tiktok/src/ScrapeTikTokComments.js:139-150 | past the observed counts the count no longer changes |
| TikTokScraper.FirstStep | scraping/tiktok/src/ScrapeTikTokComments.js:135-150 | one round appends its flag, sets the buffer to 15 on a change and lowers it by one otherwise; past the observations nothing changes |
| TikTokScraper.LoadFirstLevel | scraping/tiktok/src/ScrapeTikTokComments.js:131-155 | the loop ends when the buffer that starts at 30 and goes back to 15 on each change runs out, or fails on a round that starts with no comment, with the last count left in `numOfcommentsBeforeScroll` |
| TikTokScraper.FirstLevelEnds | scraping/tiktok/src/ScrapeTikTokComments.js:131-155 | a finished loop's last 15 rounds changed nothing, and a loop in which nothing ever changed ran 30 rounds |
| TikTokScraper.Clicked | scraping/tiktok/src/ScrapeTikTokComments.js:168 | round r counts as progress iff it found a "View" control |
| TikTokScraper.LoadSecondLevel | scraping/tiktok/src/ScrapeTikTokComments.js:160-175 | the click loop ends as the budget of 5 that every round with controls resets to 5 says |
| TikTokScraper.SecondLevelEnds | scraping/tiktok/src/ScrapeTikTokComments.js:160-175 | the click loop ends right after five rounds in a row found no control, and not before |
| TikTokScraper.PostId | scraping/tiktok/src/ScrapeTikTokComments.js:185-186 | the post id holds no '/' |
| TikTokScraper.PostIdOf | scraping/tiktok/src/ScrapeTikTokComments.js:185-186 | an address ending in "/id", with or without a query, gives the id |
| TikTokScraper.Rows | scraping/tiktok/src/ScrapeTikTokComments.js:200-214 | one row of six values per comment element, in page order |
| TikTokScraper.BuildCsv | scraping/tiktok/src/ScrapeTikTokComments.js:197-215 | the text is the header line then one quoted line per comment element |
| TikTokScraper.RowLine | scraping/tiktok/src/ScrapeTikTokComments.js:209-214 | each element adds its own quoted line |
| TikTokScraper.CsvReadsBack | scraping/tiktok/src/ScrapeTikTokComments.py:59-66 | `csv.reader` on the printed text, without the converter's rewrite of line breaks, gives the header and then every element's six values |
| TikTokScraper.IdsDistinct | scraping/tiktok/src/ScrapeTikTokComments.js:206 | the comment ids `post_id_(i + 1)` of different positions differ |
| FacebookScraper.AutoExpand | scraping/facebook/ScrapeFacebookComments.js:54-84 | the loop runs at most 20 rounds, each of which found controls, and stops early only on a round that found none |
| FacebookScraper.Changes | scraping/facebook/ScrapeFacebookComments.js:233 | one change flag per round |
| FacebookScraper.ChangesAt | scraping/facebook/ScrapeFacebookComments.js:233-238 | round r's flag says whether the block count differs from `lastCount` |
| FacebookScraper.WaitStep | scraping/facebook/ScrapeFacebookComments.js:233-239 | one round within the limit appends its flag, sets `tries` to 0 on a change and adds one otherwise, and records the count; past the observations nothing changes |
| FacebookScraper.WaitForAllCommentsLoaded | scraping/facebook/ScrapeFacebookComments.js:219-243 | the loop returns the blocks of the first reading over 2500, or else, once `maxTries` rounds in a row brought no change, the last reading and no reading over the limit; with `maxTries` 0 it reads once without a round |
| FacebookScraper.WaitEnds | scraping/facebook/ScrapeFacebookComments.js:224-242 | unless the limit was reached, the last `maxTries` rounds did not change the count |
| FacebookScraper.DigitRun | scraping/facebook/ScrapeFacebookComments.js:88 | `\d+` takes the whole run of digits |
| FacebookScraper.DigitsAt | scraping/facebook/ScrapeFacebookComments.js:88 | the captured group is digits |
| FacebookScraper.MatchFrom | scraping/facebook/ScrapeFacebookComments.js:88 | a match captures digits |
| FacebookScraper.MatchNone | scraping/facebook/ScrapeFacebookComments.js:88 | there is no match exactly when the key is nowhere followed by a digit |
| FacebookScraper.MatchLeftmost | scraping/facebook/ScrapeFacebookComments.js:88 | a match is the digits at the leftmost place the key is followed by a digit |
| FacebookScraper.PostId | scraping/facebook/ScrapeFacebookComments.js:86-90 | the post id is "unknown" or digits |
| FacebookScraper.PostIdFacts | scraping/facebook/ScrapeFacebookComments.js:86-90 | the id is "unknown" iff neither "permalink/" nor "posts/" precedes a digit; otherwise it is the digits after the leftmost "permalink/" match, or else after the leftmost "posts/" one |
| FacebookScraper.ConvertFbTime | scraping/facebook/ScrapeFacebookComments.js:189-217 | a time that is not a compact age comes back as it is |
| FacebookScraper.ConvertAge | scraping/facebook/ScrapeFacebookComments.js:198-216 | "nd", "nw", "nh", "nm" and "ns" print the day n days, 7n days, n hours, n minutes or n seconds back |
| FacebookScraper.PrintedNotAge | scraping/facebook/ScrapeFacebookComments.js:213-216 | a printed date is not a compact age |
| FacebookScraper.ConvertTwice | scraping/facebook/ScrapeFacebookComments.js:189-217 | converting a converted time changes nothing |
| FacebookScraper.Kept | scraping/facebook/ScrapeFacebookComments.js:266-268 | the kept blocks are at most all the blocks |
| FacebookScraper.KeptNext | scraping/facebook/ScrapeFacebookComments.js:266-268 | one more block is kept iff its text is not blank |
| FacebookScraper.Rows | scraping/facebook/ScrapeFacebookComments.js:270-278 | one row of six values per kept block, with id `post_id_k` for the k-th |
| FacebookScraper.ToProcess | scraping/facebook/ScrapeFacebookComments.js:255 | `slice(0, 2500)` is the first 2500 blocks, or all of fewer |
| FacebookScraper.BuildCsv | scraping/facebook/ScrapeFacebookComments.js:245-279 | the text is the header line then one quoted line per kept block of the first 2500, and the count is the number of kept blocks |
| FacebookScraper.Emit | scraping/facebook/ScrapeFacebookComments.js:259-279 | one block of the `forEach` keeps the text and count of the blocks so far |
| FacebookScraper.WrittenNext | scraping/facebook/ScrapeFacebookComments.js:270-278 | a block with text adds its line and takes the next id |
| FacebookScraper.WrittenSkip | scraping/facebook/ScrapeFacebookComments.js:266-268 | a blank block changes nothing |
| FacebookScraper.RowLine | scraping/facebook/ScrapeFacebookComments.js:278 | each kept block adds its own quoted line |
| FacebookScraper.CsvReadsBack | scraping/facebook/ScrapeFacebookComments.js:250-278 | `csv.reader` on the text gives the header and then each kept block's six values |
| FacebookScraper.KeptExactly | scraping/facebook/ScrapeFacebookComments.js:259-279 | a block gets a line iff it is among those processed and its text is not blank |
| FacebookScraper.IdsDistinct | scraping/facebook/ScrapeFacebookComments.js:275-276 | different kept blocks get different ids |
| YouTubeScraper.StripEyesFirst | scraping/youtube/ScrapeYoutubeComments.js:57 | removing eye-first emoticons never lengthens the text |
| YouTubeScraper.StripMouthFirst | scraping/youtube/ScrapeYoutubeComments.js:58 | removing mouth-first emoticons never lengthens the text |
| YouTubeScraper.RunOf | scraping/youtube/ScrapeYoutubeComments.js:61 | the run of a character at the start is all of its leading copies |
| YouTubeScraper.CollapseRuns | scraping/youtube/ScrapeYoutubeComments.js:61 | collapsing runs never lengthens the text and keeps its first two characters |
| YouTubeScraper.SqueezeSpaces | scraping/youtube/ScrapeYoutubeComments.js:67 | squeezing white space keeps whether the text starts with white space |
| YouTubeScraper.ProcessCommentText | scraping/youtube/ScrapeYoutubeComments.js:50-70 | the result is `null` exactly for an empty text |
| YouTubeScraper.CollapseNoTriple | scraping/youtube/ScrapeYoutubeComments.js:61 | after the collapse no character appears three times in a row |
| YouTubeScraper.CollapseFixed | scraping/youtube/ScrapeYoutubeComments.js:61 | a text without such a run is left alone |
| YouTubeScraper.CollapseIdempotent | scraping/youtube/ScrapeYoutubeComments.js:61 | collapsing twice is collapsing once |
| YouTubeScraper.SqueezeForm | scraping/youtube/ScrapeYoutubeComments.js:67 | squeezing leaves only single spaces and adds no character but a space |
| YouTubeScraper.TrimForm | scraping/youtube/ScrapeYoutubeComments.js:67 | trimming keeps both and leaves no space at either end |
| YouTubeScraper.ProcessedForm | scraping/youtube/ScrapeYoutubeComments.js:50-70 | a processed text holds only kept characters and no emoji, single spaces, and no space at its ends |
| YouTubeScraper.StripEmojiSpaces | scraping/youtube/ScrapeYoutubeComments.js:54 | an emoji-only text loses its emoji and keeps only white space |
| YouTubeScraper.SpaceNoFace | scraping/youtube/ScrapeYoutubeComments.js:57-58 | white space is neither eyes nor mouth |
| YouTubeScraper.SpacesNoEyes | scraping/youtube/ScrapeYoutubeComments.js:57 | white space holds no eye-first emoticon |
| YouTubeScraper.SpacesNoMouth | scraping/youtube/ScrapeYoutubeComments.js:58 | white space holds no mouth-first emoticon |
| YouTubeScraper.SpacesCollapse | scraping/youtube/ScrapeYoutubeComments.js:61 | collapsing white space leaves white space |
| YouTubeScraper.EmojiOnlyProcessesEmpty | scraping/youtube/ScrapeYoutubeComments.js:74-84 | an emoji-only comment processes to the empty text, so the processed-text test has already rejected it |
| YouTubeScraper.LetterWords | scraping/youtube/ScrapeYoutubeComments.js:99-101 | the kept words are words holding a letter, in order |
| YouTubeScraper.IsValidComment | scraping/youtube/ScrapeYoutubeComments.js:72-122 | a comment is accepted iff its processed text is non-empty, it is neither emoji-only nor emoticon-only, and it has an allowed acronym or more than three words |
| YouTubeScraper.ValidHasWords | scraping/youtube/ScrapeYoutubeComments.js:109-119 | an accepted comment has at least one word, and at least four without an acronym |
| YouTubeScraper.AsciiLower | scraping/youtube/ScrapeYoutubeComments.js:398 | the `i` flag's lowering keeps the length |
| YouTubeScraper.NoUrlWithoutDotOrSlash | scraping/youtube/ScrapeYoutubeComments.js:397-400 | a text with neither '.' nor '/' contains no URL |
| YouTubeScraper.ConvertYouTubeTime | scraping/youtube/ScrapeYoutubeComments.js:414-444 | a time that is not an age comes back as it is |
| YouTubeScraper.UnitWordPlain | scraping/youtube/ScrapeYoutubeComments.js:417-434 | the unit words hold neither white space nor digits |
| YouTubeScraper.UnitParts | scraping/youtube/ScrapeYoutubeComments.js:417-434 | "<unit> trước" gives its unit word |
| YouTubeScraper.AgeParts | scraping/youtube/ScrapeYoutubeComments.js:417-434 | "<digits> <tail>" asks for the move of the tail's unit by the digits' value |
| YouTubeScraper.ConvertAge | scraping/youtube/ScrapeYoutubeComments.js:417-443 | "<n> <unit> trước" prints the day n units back |
| YouTubeScraper.PrintedNoSpace | scraping/youtube/ScrapeYoutubeComments.js:440-443 | a printed date holds no white space |
| YouTubeScraper.ConvertTwice | scraping/youtube/ScrapeYoutubeComments.js:414-444 | converting a converted time changes nothing |
| YouTubeScraper.ValueAt | scraping/youtube/ScrapeYoutubeComments.js:336 | the captured value is non-empty and has no '&' |
| YouTubeScraper.MatchFrom | scraping/youtube/ScrapeYoutubeComments.js:336 | a match is non-empty and has no '&' |
| YouTubeScraper.VideoId | scraping/youtube/ScrapeYoutubeComments.js:334-338 | the video id is non-empty and has no '&' |
| YouTubeScraper.MatchNone | scraping/youtube/ScrapeYoutubeComments.js:336 | there is no match exactly when no place matches |
| YouTubeScraper.MatchLeftmost | scraping/youtube/ScrapeYoutubeComments.js:336 | a match is the value at the leftmost place that matches |
| YouTubeScraper.VideoIdOf | scraping/youtube/ScrapeYoutubeComments.js:334-338 | "<path>?v=<id>" and "<path>?v=<id>&<more>" give the id |
| YouTubeScraper.Grew | scraping/youtube/ScrapeYoutubeComments.js:211-217 | one change flag per round |
| YouTubeScraper.IdleNext | scraping/youtube/ScrapeYoutubeComments.js:211-217 | the stable count goes up by one on a round without a new thread and back to 0 otherwise |
| YouTubeScraper.LoadStep | scraping/youtube/ScrapeYoutubeComments.js:163-226 | one more round either ends the loop or keeps the stable count equal to the idle rounds and logs the new count |
| YouTubeScraper.LoadAllComments | scraping/youtube/ScrapeYoutubeComments.js:156-230 | the loop runs until the first round after which three rounds in a row found nothing new, fifty rounds were made, or a round past the thirtieth clicked nothing, and logs the count of its last round |
| YouTubeScraper.LoadBounds | scraping/youtube/ScrapeYoutubeComments.js:163-226 | the loop runs between 3 and 50 rounds |
| YouTubeScraper.LoadSteady | scraping/youtube/ScrapeYoutubeComments.js:163-226 | when the count never changes, the loop runs exactly 3 rounds |
| YouTubeScraper.LoadBusy | scraping/youtube/ScrapeYoutubeComments.js:163-226 | when every round changes the count and clicks a button, the loop runs all 50 rounds |
| YouTubeScraper.KeptRepliesNext | scraping/youtube/ScrapeYoutubeComments.js:502-533 | one more reply gets a line iff it has text and passes both filters |
| YouTubeScraper.Rows | scraping/youtube/ScrapeYoutubeComments.js:488-489 | one row of six values per kept comment, with id `video_id_k` for the k-th |
| YouTubeScraper.CollectData | scraping/youtube/ScrapeYoutubeComments.js:446-536 | the text is the header and a line per kept comment, thread by thread, and the count is their number |
| YouTubeScraper.CollectThread | scraping/youtube/ScrapeYoutubeComments.js:464-535 | one thread adds the lines of the comments of it that are kept |
| YouTubeScraper.ThreadSilenced | scraping/youtube/ScrapeYoutubeComments.js:471-478 | a top comment with text that fails a filter returns from the thread's callback, so its replies get no line |
| YouTubeScraper.ThreadHead | scraping/youtube/ScrapeYoutubeComments.js:466-535 | otherwise the thread's lines are its top comment's, if kept, then its kept replies' |
| YouTubeScraper.CollectReplies | scraping/youtube/ScrapeYoutubeComments.js:502-533 | the inner `forEach` adds the lines of the kept replies |
| YouTubeScraper.RepliesStep | scraping/youtube/ScrapeYoutubeComments.js:502-533 | one more reply extends the kept replies by itself or by nothing |
| YouTubeScraper.CollectReply | scraping/youtube/ScrapeYoutubeComments.js:503-532 | one reply adds its line iff it has text and passes both filters |
| YouTubeScraper.AddLine | scraping/youtube/ScrapeYoutubeComments.js:486-489 | an accepted comment takes the next id and adds its line |
| YouTubeScraper.RowLine | scraping/youtube/ScrapeYoutubeComments.js:489 | each kept comment adds its own quoted line |
| YouTubeScraper.RowsSnoc | scraping/youtube/ScrapeYoutubeComments.js:486-489 | one more kept comment adds its row |
| YouTubeScraper.CsvReadsBack | scraping/youtube/ScrapeYoutubeComments.js:453-489 | `csv.reader` on the text gives the header and then each kept comment's six values |
| YouTubeScraper.IdsDistinct | scraping/youtube/ScrapeYoutubeComments.js:486-487 | different kept comments get different ids |
| YouTubeScraper.RowTextProcessed | scraping/youtube/ScrapeYoutubeComments.js:479-489 | the text column of a kept comment is its non-empty processed text |
| YouTubeScraper.KeptRepliesExactly | scraping/youtube/ScrapeYoutubeComments.js:502-533 | a reply gets a line iff it has text and passes both filters |
| YouTubeScraper.ThreadKeptHas | scraping/youtube/ScrapeYoutubeComments.js:464-535 | a comment of a thread gets a line exactly as the thread's callback emits it |
| YouTubeScraper.KeptExactly | scraping/youtube/ScrapeYoutubeComments.js:464-535 | a comment gets a line iff some thread emits it |
| YouTubeScraper.KeptFlat | scraping/youtube/ScrapeYoutubeComments.js:464-535 | the kept comments are the threads' lines one thread after the other |
| RedditScraper.PostId | scraping/reddit/ScrapeRedditComments.js:305-317 | with "/comments/" in the address the id is the next path piece, without '/'; without it, the post element's id or the random fallback |
| RedditScraper.PostIdOf | scraping/reddit/ScrapeRedditComments.js:306-308 | `<prefix>/comments/<id>/<rest>` gives the id |
| RedditScraper.FindAfter | scraping/reddit/ScrapeRedditComments.js:308 | the first "/comments/" is the one after a prefix without one |
| RedditScraper.NoSeparator | scraping/reddit/ScrapeRedditComments.js:308 | `<id>/<rest>` holds no "/comments/" when neither part does |
| RedditScraper.Trimmed | scraping/reddit/ScrapeRedditComments.js:333-335 | each paragraph text is trimmed, in order |
| RedditScraper.PostRaw | scraping/reddit/ScrapeRedditComments.js:319-351 | `post_raw` is never empty: it starts with the title when there is one, and is the content, else "N/A", without one |
| RedditScraper.PostRawLines | scraping/reddit/ScrapeRedditComments.js:339-340 | a one-line title and some content give the title as the first line and the content's lines after it |
| RedditScraper.BlankParagraphs | scraping/reddit/ScrapeRedditComments.js:333-345 | two blank paragraphs without a title give " ", not "N/A" |
| RedditScraper.Expander.constructor | scraping/reddit/ScrapeRedditComments.js:89-90 | `clickedButtons` starts empty |
| RedditScraper.Expander.Click | scraping/reddit/ScrapeRedditComments.js:136-137 | a click records the button in the click list and in `clickedButtons` |
| RedditScraper.Expander.ClickPass | scraping/reddit/ScrapeRedditComments.js:131-145 | after a pass every button of the snapshot is clicked, nothing else is, and `foundNewButtons` says whether a click happened |
| RedditScraper.Expander.ClickExpandButtons | scraping/reddit/ScrapeRedditComments.js:93-162 | the recursion makes at most `maxDepth - currentDepth` passes, and stops earlier only when every button shown is clicked |
| RedditScraper.Expander.ProcessNestedComments | scraping/reddit/ScrapeRedditComments.js:165-210 | the loop ends with every button shown clicked, or after `maxIterations` rounds that each clicked at least one |
| RedditScraper.Expander.LoadAllComments | scraping/reddit/ScrapeRedditComments.js:213-265 | at most 15 scrolls, then the expand recursion of at most 20 passes, at most 5 scrolls, and the nested pass |
| RedditScraper.Unclicked | scraping/reddit/ScrapeRedditComments.js:171 | the filter keeps the shown buttons not clicked yet, and is empty iff every one was |
| RedditScraper.ScrollUntilSettled | scraping/reddit/ScrapeRedditComments.js:221-235 | the loop stops at the limit or at the first scroll after which the height did not change |
| RedditScraper.ExtractContent | scraping/reddit/ScrapeRedditComments.js:268-294 | the result is `null` exactly when the content has no paragraph |
| RedditScraper.ContentBlank | scraping/reddit/ScrapeRedditComments.js:285-288 | the text is not blank iff some paragraph is not blank |
| RedditScraper.JoinKeptBlank | scraping/reddit/ScrapeRedditComments.js:287-288 | joining the non-empty pieces gives a non-blank text iff there is one |
| RedditScraper.JoinHead | scraping/reddit/ScrapeRedditComments.js:288 | a join starts with the first piece's first character |
| RedditScraper.TrimHead | scraping/reddit/ScrapeRedditComments.js:401 | a text starting with a non-space does not trim to nothing |
| RedditScraper.KeepEmpty | scraping/reddit/ScrapeRedditComments.js:287 | the filter keeps nothing iff every piece is dropped, and otherwise starts with the first kept one |
| RedditScraper.KeptTrimmed | scraping/reddit/ScrapeRedditComments.js:286-287 | the first kept paragraph is non-empty and starts with no space |
| RedditScraper.EmitsExactly | scraping/reddit/ScrapeRedditComments.js:368-403 | an element gets a line iff its text is not blank and one of its paragraphs is not blank |
| RedditScraper.AuthorOf | scraping/reddit/ScrapeRedditComments.js:376-384 | the author is never empty: the attribute when it is not blank, "Anonymous" without one and without "[deleted]" |
| RedditScraper.Counted | scraping/reddit/ScrapeRedditComments.js:373 | the counter counts at most the elements |
| RedditScraper.LinesNext | scraping/reddit/ScrapeRedditComments.js:366-407 | one more element adds its line, numbered by the counter, iff it gets one, and the counter moves on for every element with text |
| RedditScraper.Rows | scraping/reddit/ScrapeRedditComments.js:406 | one row of six values per line |
| RedditScraper.BuildCsv | scraping/reddit/ScrapeRedditComments.js:354-407 | the text is the header line and then one quoted line per line of the elements |
| RedditScraper.Emit | scraping/reddit/ScrapeRedditComments.js:366-407 | one element keeps the text and counter of the elements so far |
| RedditScraper.SkipStep | scraping/reddit/ScrapeRedditComments.js:368-403 | an element without a line leaves the text alone and moves the counter iff it has text |
| RedditScraper.EmitStep | scraping/reddit/ScrapeRedditComments.js:373-406 | an element with a line adds it and moves the counter |
| RedditScraper.RowLine | scraping/reddit/ScrapeRedditComments.js:406 | each line adds its quoted cells |
| RedditScraper.RowsSnoc | scraping/reddit/ScrapeRedditComments.js:406 | one more line adds its row |
| RedditScraper.CsvReadsBack | scraping/reddit/ScrapeRedditComments.js:354-407 | `csv.reader` on the printed text, without the converter's rewrite of line breaks, gives the header and then each line's six values |
| RedditScraper.LinesFaithful | scraping/reddit/ScrapeRedditComments.js:366-407 | each line is the element at its position, which gets a line, numbered by the elements with text up to it |
| RedditScraper.LinesComplete | scraping/reddit/ScrapeRedditComments.js:366-407 | every element that gets a line has one |
| RedditScraper.CountedGrows | scraping/reddit/ScrapeRedditComments.js:373 | an element with text raises the counter |
| RedditScraper.LinesOrdered | scraping/reddit/ScrapeRedditComments.js:366-407 | later lines come from later elements and carry larger numbers |
| RedditScraper.LinesIncreasing | scraping/reddit/ScrapeRedditComments.js:366-407 | the lines follow page order |
| RedditScraper.IdsDistinct | scraping/reddit/ScrapeRedditComments.js:373 | different numbers give different ids |
| RedditScraper.NumbersSkip | scraping/reddit/ScrapeRedditComments.js:373-403 | an element with text but no comment text uses up a number, so the ids have a gap |

## Left out

- The Gemini calls (`configure`, `list_models`, `generate_content`) and the network re-test on key switches: a reply is a parameter of the call number and prompt, standing for the text or the error kind.
- `time.sleep`, the pacing waits, `setTimeout` and every other wait: clock readings before and after a wait are parameters, so a wait changes nothing in the model.
- The clock, `datetime.now()` and JavaScript's `new Date()` with the GMT+7 adjustment: the time is a parameter, and calendar arithmetic (`setDate`, `setMonth` and their overflow) is an abstract shift function.
- RateLimit.RateLimitManager.GetAvailableKey: the scan reads one clock for all keys, while `check_limits` calls `datetime.now()` for every key (labeling/3_gemini_label.py:88, 157); a minute or day boundary inside one scan is not modelled.
- KeyManager.APIKeyManager.FindAvailableKey: the scan reads one clock for all keys, while `can_make_request` calls `datetime.now()` for every key it tries (preprocessing/2_summarize_and_prepare.py:110); a minute or day boundary inside one scan is not modelled.
- KeyManager.APIKeyManager.WaitIfNeeded: each of its two scans reads one clock for all keys, for the same reason as `FindAvailableKey`.
- Floating point: the confidence `max/(sum + 0.001)`, the sarcasm score with its weights and the stance flip it drives, and the time and capacity estimates; they are outside the model.
- Regular expressions, emoji, URL and HTML stripping, `fix_json_format`'s repairs, the Threads `cleanCommentText`: pattern families are predicates and match lists given as parameters, except where a rule is written out (the YouTube clean-up, the id and age patterns, the summary block pattern).
- Unicode NFC normalisation (`unicodedata.normalize`) is not modelled: texts go through unchanged.
- MergeSummary.MatchAt: `\d` is read as an ASCII digit, while in a Python 3 str pattern it matches every Unicode decimal digit (labeling/05_merge_summary_to_dataset.py:10); a header such as "POST ٣:" is matched by `re.findall` and not here.
- MergeSummary.FirstMatch: the leftmost match is that of the ASCII-digit pattern, as for `MatchAt`.
- MergeSummary.ExtractSummaries: the matches are those of the ASCII-digit pattern, as for `MatchAt`, so a post numbered with non-ASCII digits is missed.
- Text.Lower: covers ASCII, Latin-1 and the Vietnamese letters, one character to one; Python's `str.lower` covers all of Unicode and can change the length (`'İ'.lower()` has two characters).
- Text.Upper: the same coverage as `Text.Lower`.
- Text.PyInt: accepts optional sign and ASCII digits only; `int()` also accepts underscores ("1_000") and non-ASCII digits, so such an answer to a threshold prompt is read as invalid here.
- Text.JsParseInt: base 10 only; `parseInt("0x10")` is 16 in JavaScript and 0 here.
- The JavaScript strings of the YouTube clean-up are sequences of code points: an astral character below U+1F000 that the emoji class leaves alone is two UTF-16 units in the source and one character here.
- YouTubeScraper.ConvertYouTubeTime: the unit words are compared as written, without NFD forms, and `parseInt` has no precision limit.
- `json.loads` is a partial function given as a parameter; its internals are not modelled.
- pandas, Excel, text files, checkpoints, `compare_model_results`, `save_error_log` and the clipboard: tables are sequences of rows or columns, and the files are their contents.
- `input()` prompts, `check_environment` and the confirmation questions: the answers are parameters.
- Random sampling in `balance_comments_advanced` and `Math.random` ids: the random draws are parameters, and for sampling only the counts of kept rows are modelled, not which rows survive.
- FirstClean.BalancePosts: takes the posts already grouped, so it cannot show that `groupby('post_id')` drops rows whose `post_id` is NaN (preprocessing/1_first_clean.py:253).
- MinimalClean.CleanData: on a sheet with no rows the percentage print divides by zero (preprocessing/01_first_clean.py:180); the `except` then returns None and nothing is written, where the model returns the empty sheet.
- FirstClean.FilterLong: on a sheet with no comments the percentage print divides by zero (preprocessing/1_first_clean.py:140), and so does the short filter's print when no row reaches it (preprocessing/1_first_clean.py:470); the run then ends in the `except` with nothing written, where the model returns an empty result.
- PostSummarizer.MainBatch: NaN posts, which `unique()` keeps, are not modelled; posts are texts.
- PostSummarizer.MainBatch: the ZeroDivisionError of the final print on an empty input is not modelled.
- PostSummarizer.SummarizeLeaf: the sleep on a 429 reply is a no-op, like every wait.
- Summarize.ProcessBatch: the result is stated in terms of the ghost `cuts`, for each batch sent the attempt at which no key was ready; which attempt that is depends on the key pool's usage over the run and is not computed from the inputs.
- GeminiLabel.LabelCommentsBatch: the same holds for its ghost `cut`, the attempt at which the pool had no key.
- Dead code is not modelled: `fuzzy_match`, `enrich_comment_context`, `verify_sensitive_labels`, `md5blk_array`, the Threads `quoteString`, and the TikTok `csvFromComment` and `extractNumericStats`. `classify_stance_enhanced` (preprocessing/02_gemini_labeling.py:155) is never called either: the pipeline takes a post's stance from `analyze_post_context_enhanced` (line 632), which the model has as the `stanceOf` parameter.
- labeling/4_check_dataset.py and labeling/03_gui_comment_auditor.py are Tkinter interfaces and not part of this model.
- The Python clipboard converters are not part of this model beyond what `csv.reader` reads back (`Csv.ReadSheet`).
- ThreadsScraper.CsvReadsBack: the converter writes the clipboard text through `.replace("\r", "\n").replace("\n\n", "\n")` before `csv.reader` reads it (scraping/threads/ScrapThreadsComments.py:35); that rewrite is not modelled, so the lemma is about the text as printed. Values holding '\r' or a blank line come back changed, and post content joined with "\n\n" (scraping/threads/ScrapThreadsComments.js:273, 301, 321) is such a value.
- TikTokScraper.CsvReadsBack: the same rewrite before `csv.reader` (scraping/tiktok/src/ScrapeTikTokComments.py:40) is not modelled; a value with '\r' or a blank line does not read back as it was.
- RedditScraper.CsvReadsBack: the same rewrite before `csv.reader` (scraping/reddit/ScrapeRedditComments.py:43) is not modelled; multi-paragraph content does not read back as it was.
- DOM queries, XPath, scrolling, clicking, visibility checks and the `try`/`catch` paths of the browser scripts: what a query finds is a parameter.
- ThreadsScraper.Scrape: sees the page as a finite sequence of views after which nothing changes; that is what ends the loop in the model, while the script goes on for as long as the page keeps growing.
- TikTokScraper.LoadFirstLevel: a round that starts with no comment fails on `lastComment.scrollIntoView` and ends the script; the model returns `ok` false there instead of modelling the exception.
- TikTokScraper.BuildCsv: `formatDate` is passed in as the function `format`; it is the same function as the Reddit one (`Dates.FormatDate`).
- FacebookScraper.WaitForAllCommentsLoaded: the `autoExpand` before each reading is not tied to what the reading shows; the readings, including the final `getBlocksFn()` after the loop, are the given page views.
- RedditScraper.Expander.ClickExpandButtons: the grouping of buttons by 500-pixel bands is not modelled; buttons are clicked in page order.
- RedditScraper.Expander.LoadAllComments: the page heights are parameters, and `scrollIntoView` is not modelled.
- YouTubeScraper: `expandAllContent` and the DOM getters are not modelled, and neither is `filteredCounts`, which only feeds the log.
- Md5: the test vectors of appendix A.5 of RFC 1321 (md5("") = d41d8cd98f00b204e9800998ecf8427e, md5("abc") = 900150983cd24fb0d6963f7d28e17f72) are not proved, because evaluating the 64 steps on concrete words is beyond the verifier's budget; the step table is transcribed from the source and tied to it only by reading.

## Findings

| source | as written | input that shows it | evidently intended | confidence | as-written member | corrected member |
|---|---|---|---|---|---|---|
| preprocessing/02_gemini_labeling.py:604 | `second_stage_classification` writes `ambiguous` into `batch_df`, a `.copy()` of the post's rows (line 626), so the `ambiguous` column of the returned frame stays 0 (line 651) | a PHAN_DONG reply for the string comment "xin chao cac ban", on which no weighted rule fires, under a neutral post: the second stage flags it (`EnhancedLabel.SecondStageFlagsUnscored`, `EnhancedLabel.SecondStageFlagsGreeting`), yet its `ambiguous` cell is 0 | the column is 1 exactly on the rows the second stage flags | not executed | EnhancedLabel.RunEnhancedLabelingPipeline | EnhancedLabel.RunEnhancedLabelingPipelineWithFlags |
