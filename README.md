# deal-voice diarization core, in Dafny

This project models the diarization logic of `DialogueRecognitionSystem` in
`deal_voice.py`, and proves properties of that model. The system turns one
speech recogniser result into a list of dialogue lines, each tagged with a
speaker. It works in four stages:

1. **Merge tokens into segments.** The recogniser gives word tokens with
   `[start_ms, end_ms]` timestamps. Each token is glued onto the running
   segment when the pause before it is at most 300 ms; otherwise a new segment
   opens (`_merge_continuous_segments`).
2. **Attach embeddings.** A speaker embedding is requested for every merged
   segment. Segments the extractor has no embedding for are dropped
   (`_process_asr_result`).
3. **Cluster speakers online.** Each embedding is compared, in insertion
   order, with one representative per known speaker. The first most similar
   speaker is reused if its similarity is strictly above 0.7. Otherwise a new
   speaker `Speaker_<n>` is created (`_identify_speaker`, `_create_new_speaker`,
   `_assign_speaker_ids`).
4. **Assemble.** Every line is punctuated. Lines the punctuation model fails on
   are dropped. The rest are stably sorted by start time (`process_audio_file`).

Modules:

- `Words`: Python's `str.split()` and joining with a single space.
- `Seqs`: an order-preserving `Filter`, used as the reference for every
  "drop the failed ones" step.
- `Merger`: stage 1.
- `Cosine`: the similarity on exact reals, and its square-root-free threshold test.
- `Speakers`: the clusterer as functions on a table of profiles.
- `Segments`: stage 2.
- `Labelling`: the labelling half of stage 3.
- `Assembly`: stage 4.
- `DealVoice`: the class `DialogueRecognitionSystem`. Its fields are the
  speaker list and the next-id counter, and its methods update them in place.
  Each loop method is proved equal to the functional specification of its
  stage.

How the external pieces are represented:

- **Times** are integer milliseconds.
- **The similarity** is a parameter of the class: a function from two
  embeddings to a real.
- **The embedding extractor** is a function from a millisecond span to an
  optional embedding.
- **The punctuation model** is a function from a text to an optional text.
- **The dictionary `speaker_embeddings`** is an insertion-ordered sequence of
  (id, embedding) profiles. `Speakers.LabelInjective` and
  `Speakers.IdsDistinct` show that the ids never collide. So the sequence is a
  faithful image of the dictionary, and iterating it follows `dict.items()`
  order.

The class methods require and ensure `Valid()`. This says the k-th profile is
`Speaker_<k+1>` and the counter is one more than the number of profiles. The
constructor establishes it and every method keeps it, so it holds in every
state the Python object can reach.

On two points the code behaves differently from a per-run reading of the
pipeline, and the model follows the code:

- **Speakers persist across calls.** One might expect speakers to be scoped
  to one run of one file. In the code, `speaker_embeddings` and `next_speaker_id` live
  on the instance (deal_voice.py:26-27) and are never reset. So successive
  `process_audio_file` calls on one object share speakers.
  `DialogueRecognitionSystem.ProcessAudioFile` starts from the current table,
  and `Labelling.LabelAllAppend` states how labelling composes across calls.
- **An invalid result crashes first.** `_process_asr_result` treats an
  invalid recogniser result as zero segments. In `process_audio_file`, line 36
  first indexes `asr_result[0]['timestamp']`, before `_process_asr_result`
  checks the shape. So most invalid results raise there instead (see "Left out").

## Model

| member | source | states |
|---|---|---|
| Words.Split | deal_voice.py:110 | every word `str.split()` produces is non-empty and free of whitespace |
| Words.SplitJoin | deal_voice.py:110-132 | splitting the space-joined words gives back exactly those words (a round trip) |
| Merger.MergeContinuousSegments | deal_voice.py:105-144 | the loop's result equals the left-fold specification `Merge`; it is empty exactly when the timestamps are empty, the text is empty, or the word count differs from the timestamp count |
| Merger.MergeExample | deal_voice.py:105-144 | `[[0,200],[250,400],[800,950]]` with "a b c" gives `(0,400,"a b")` and `(800,950,"c")`: a 50 ms pause is glued, a 400 ms pause splits |
| Merger.SplitExample | deal_voice.py:110 | "a b c" splits into the three words "a", "b", "c" |
| Merger.OpenersShape | deal_voice.py:124-141 | the segment-opening tokens are token 0 and exactly the tokens whose pause after the previous token exceeds 300 ms, in ascending order |
| Merger.MergeRuns | deal_voice.py:124-143 | segment k covers exactly the tokens from opener k up to the next opener: its start is the first token's start, its end is the last token's end, and its text is those words joined by spaces. The running end compared at line 129 is always the previous token's end |
| Merger.MergeSpan | deal_voice.py:116-143 | between 1 and `len(timestamps)` segments; the first starts at `timestamps[0][0]` and the last ends at `timestamps[-1][1]` |
| Merger.MergeGaps | deal_voice.py:129-141 | consecutive emitted segments are separated by a pause of more than 300 ms |
| Merger.MergeText | deal_voice.py:119-138 | joining the segment texts with spaces gives the consumed words joined with spaces, so no word is lost, duplicated or reordered |
| Merger.MergeWellFormed | deal_voice.py:107-144 | for matched non-empty input, the span bounds and gaps hold, and re-splitting the joined segment texts gives exactly the words of the input text |
| Cosine.ThresholdBySquares | deal_voice.py:206-229 | for the exact cosine (0 when a norm product is 0), `similarity > 0.7` holds iff the norm product is non-zero, the dot product is positive, and its square exceeds 0.49 times the product of the squared norms |
| Speakers.DecimalInjective | deal_voice.py:192-209 | different counters have different decimal representations |
| Speakers.LabelInjective | deal_voice.py:192-209 | different counters give different `Speaker_<n>` ids |
| Speakers.IdsDistinct | deal_voice.py:192-210 | in a well-formed table no two profiles share an id |
| Speakers.ScanFindsFirstMaximum | deal_voice.py:197-204 | the scan returns the earliest profile of maximal similarity, or none exactly when every similarity is at most -1 (then the maximum stays -1) |
| Speakers.ScanIsFirstMaximum | deal_voice.py:197-204 | the first maximum determines the scan's result: ties go to the earliest-inserted speaker |
| Speakers.AssignFirst | deal_voice.py:191-195 | on an empty table any embedding becomes `Speaker_1` and the counter becomes 2 |
| Speakers.AssignMatches | deal_voice.py:197-206 | when the first maximum is strictly above 0.7, its id is returned and the table is unchanged, representative embeddings included |
| Speakers.AssignCreates | deal_voice.py:206-212 | when no similarity is strictly above 0.7 (exactly 0.7 included), a new speaker is created |
| Speakers.AssignMatchIff | deal_voice.py:197-212 | the table is unchanged iff some representative is more than 0.7 similar; otherwise the result is exactly the new-speaker step |
| Speakers.NewSpeakerPreserves | deal_voice.py:208-212 | creating a speaker appends `(Speaker_<next>, embedding)`, raises the counter by exactly 1, keeps every existing profile, and keeps the table size equal to the counter minus 1 |
| Speakers.AssignPreserves | deal_voice.py:190-212 | an assignment keeps the table well formed, keeps the old profiles as a prefix, grows the table by at most one, and returns an id the table holds |
| Segments.AttachEmbeddings | deal_voice.py:88-101 | the inner loop keeps, in order, each merged segment the extractor answers for, with that embedding |
| Segments.ProcessAsrResult | deal_voice.py:73-103 | the loop's result equals the specification `SegmentsOf`: nothing for a non-list or empty result; otherwise the merged segments of the items carrying a timestamp, with the embedded ones kept |
| Segments.AttachAppend | deal_voice.py:80-101 | the extractor is asked segment by segment, so attaching distributes over concatenation of the items' segments |
| Segments.AttachEmbedded | deal_voice.py:89-101 | every kept segment carries exactly the embedding the extractor gives for its span |
| Segments.AttachIsFilter | deal_voice.py:88-101 | exactly the merged segments without an embedding are dropped; the others keep their order, span and text |
| Segments.SegmentsOfShape | deal_voice.py:76-101 | an invalid shape or an empty list yields no segments; otherwise the segments are the embedded merged segments in discovery order, never more than there are merged segments, each with its extractor embedding |
| Segments.CandidatesSkipInvalid | deal_voice.py:80-81 | an item that is not a dictionary, or has no `'timestamp'`, contributes no segment |
| Labelling.LabelAllSpans | deal_voice.py:173-188 | one dialogue line per embedded segment, in segment order, with the segment's span and text; segments without an embedding are exactly the ones skipped |
| Labelling.LabelAllPreserves | deal_voice.py:176-186 | labelling keeps the table well formed and its old profiles, adds at most one speaker per line, and labels every line with an id the final table holds |
| Labelling.LabelAllAppend | deal_voice.py:173-188 | labelling `a + b` is labelling `a`, then labelling `b` from the table `a` left behind: the speakers carry over |
| Assembly.PunctuateAllKeeps | deal_voice.py:49-63 | line k of the output is the k-th line the punctuation model accepts, with its speaker and span kept and its text replaced by the model's text |
| Assembly.PunctuateDialogues | deal_voice.py:49-63 | the loop's result equals the specification `PunctuateAll` |
| Assembly.InsertPermutes | deal_voice.py:65 | inserting adds exactly the inserted line |
| Assembly.InsertSorted | deal_voice.py:65 | inserting into a sorted list keeps it sorted by start |
| Assembly.InsertStable | deal_voice.py:65 | an inserted line goes after every line with the same start |
| Assembly.SortByStartSorts | deal_voice.py:65 | the sorted list is ordered by start and is a permutation of the input |
| Assembly.SortByStartStable | deal_voice.py:65 | for every start time, the lines with that start keep their input order |
| Assembly.SortedUnique | deal_voice.py:65 | two sorted lists that agree on the lines of every start time are equal |
| Assembly.SortByStartUnique | deal_voice.py:65 | any sorted list that keeps each start time's lines in input order is `SortByStart` of the input, so the model is the result of any stable sort such as `list.sort` |
| Assembly.InsertInPlace | deal_voice.py:65 | the array after one insertion pass is the sorted prefix with the next line inserted, followed by the untouched rest |
| Assembly.SortInPlace | deal_voice.py:65 | the array is sorted in place into `SortByStart` of its old contents |
| DealVoice.DialogueRecognitionSystem.constructor | deal_voice.py:26-27 | a new system has no speakers and next id 1 |
| DealVoice.DialogueRecognitionSystem.CreateNewSpeaker | deal_voice.py:208-212 | the fields become the new-speaker step of the old table, and the invariant is kept |
| DealVoice.DialogueRecognitionSystem.IdentifySpeaker | deal_voice.py:190-206 | the id returned and the new fields are the assignment `Assign` of the old table; the invariant is kept |
| DealVoice.DialogueRecognitionSystem.AssignSpeakerIds | deal_voice.py:173-188 | the lines returned and the new fields are the labelling `LabelAll` from the old table |
| DealVoice.DialogueRecognitionSystem.ProcessAudioFile | deal_voice.py:40-65 | the result is the stable sort by start of the punctuated labelling of the result's segments; the fields hold the table the labelling left |
| DealVoice.PunctuatedFrom | deal_voice.py:49-60 | each punctuated line has the speaker and span of some input line |
| DealVoice.ProcessAudioFileProperties | deal_voice.py:40-65 | every segment gets a line before punctuation; the output is sorted by start, is a permutation of the punctuated lines, is no longer than the segments, and names only known speakers; old speakers are kept; an invalid or empty result yields nothing and leaves the table unchanged |
| Labelling.LabelAllSkips | deal_voice.py:176-178 | segments without an embedding produce no line and leave the table unchanged |
| DealVoice.LoneSpeaker | deal_voice.py:173-195 | a fresh system labels a lone embedded segment `Speaker_1` and then holds exactly that profile |
| DealVoice.FirstSpeaker | deal_voice.py:173-195 | a fresh system labels its first embedded segment `Speaker_1`, after any number of unembedded segments and whatever follows it, and after that segment holds exactly that one profile |
| Speakers.AssignByCosine | deal_voice.py:190-229 | when the similarity is the exact cosine at the first maximum, `Assign` reuses that speaker exactly when the square-root-free 0.7 test holds, and otherwise creates a new one |
| DealVoice.ClusteringExample | deal_voice.py:190-212 | similarities 0.9 and at most 0.7 to the first speaker give `Speaker_1`, `Speaker_1`, `Speaker_2`, and two known speakers |

## Left out

- auto_scan.py is not part of this model. It holds database access, file hashing, HTTP upload and a filesystem watcher; none of it is diarization logic.
- Model loading and inference through `funasr.AutoModel` (deal_voice.py:13-24, 35, 52, 148-152) are not modelled. The recogniser's output is the `AsrResult` value, and the extractor and punctuation model are function parameters. These parameters are deterministic: the same span or text always yields the same answer.
- `_extract_embedding` (deal_voice.py:146-171) is the `Extractor` parameter. Its exceptions, its `'embedding'`/`'spk_embedding'` key lookup and its tensor conversion collapse into "None or an embedding".
- The floating-point cosine of `_cosine_similarity` (deal_voice.py:214-229) is not modelled. The numpy/torch conversions and `flatten` are left out too. The clusterer takes any similarity function. `Cosine` gives the exact-real cosine with its zero-norm rule and the square-root-free form of the 0.7 test; rounding is not modelled.
- The seconds fields (`/ 1000`, deal_voice.py:120-121, 131, 139-140) are not modelled. Lines carry milliseconds and are sorted by them. Division by 1000 preserves order, so this gives the same order as sorting by seconds, except for float rounding of very large times, which is not modelled.
- Timing, progress printing, `print_dialogue`, the `:.2f` formatting and the `__main__` block (deal_voice.py:30-31, 67-69, 231-256) are not modelled.
- The warning prints on the error paths (deal_voice.py:62, 77, 112, 167, 170) are not modelled; each such path is modelled only by the value it returns or the line it drops.
- Embeddings of different lengths are not modelled: all embeddings are assumed to have one dimension. In the source, `np.dot` (deal_voice.py:226) raises `ValueError` on a mismatch, and neither `_identify_speaker` nor `process_audio_file` catches it, so the whole call aborts; the model's total similarity function hides this.
- DealVoice.DialogueRecognitionSystem.ProcessAudioFile: the diagnostic at deal_voice.py:36 is not modelled. It reads `asr_result[0]['timestamp']` before the shape is checked. So the source raises on an empty list, on most non-list results, and on a first item that is not a dictionary or has no `'timestamp'`. A non-list result that survives the read, such as a tuple of dictionaries with `'timestamp'`, goes on to zero segments at line 76. The model goes on as `_process_asr_result` would in every case: no lines for an empty or non-list result (`NotAList` stands for any non-list value), and the other items' lines when only the first item is not a dictionary or lacks `'timestamp'`.
- Timestamps are typed as pairs of integers. Ill-shaped timestamp entries, which would raise in the source, are not modelled. A `'text'` value is a string or absent; a `None` text behaves like an absent one.
- `_process_asr_result` touches neither `speaker_embeddings` nor `next_speaker_id`. Its only instance dependency is the speaker-verification model that `_extract_embedding` uses (deal_voice.py:89, 148), and that model is the `Extractor` parameter. So it is the module-level method `Segments.ProcessAsrResult` rather than a class member.

