# groq-book document assembly, in Dafny

This project models how groq-book (`main.py`) assembles a book once the outline has been parsed. The outline is a mapping, in insertion order, from section titles to a description string, a nested mapping, or any other JSON value. The model covers four parts:

- **`GenerationStatistics`** (`statistics.dfy`). A record of five additive counters plus a model label; `add` sums them in place. The two speed getters guard against a zero time.
- **`Book`** (`outlines.dfy`, `strings.dfy`, `books.dfy`):
  - `flatten_structure` lists every title in pre-order;
  - the constructor gives each flattened title an empty buffer;
  - `update_content` appends to one buffer;
  - `get_markdown_content` writes `'#' * level + " " + title + "\n" + buffer + "\n\n"` for every title whose buffer is not blank after `str.strip()`, and always descends into dict values one level deeper.
- **The chunk filter of `generate_section`** (`sections.dfy`). The streamed chunks become events: a text delta for every non-empty `delta.content`, and a statistics record, labelled `"llama3-8b-8192"`, whenever `x_groq` carries a `usage` block.
- **`generate_book`'s walk** (`generation.dfy`). `stream_section_content` visits the outline in order:
  - it generates only string-valued items, recursing into dict values and skipping anything else;
  - it appends each delta to the item's own buffer and adds each statistics record to a `"Combined"` total;
  - it increments `completed_sections` once per generated item and reports `completed_sections / total_sections` after each, where `total_sections` counts every flattened title.

The section-generation provider is a parameter `provider: (nat, string) -> seq<Chunk>`. It gives the chunk stream that answers the k-th section call (counting from 0) made with a given prompt. The functions `LeafText`, `LeafReports` and `Route` state what the walk must produce in terms of those streams, independently of the loops. `Outlines.Occurs` describes the tree by depth, so the traversals can be checked against it. `scenarios.dfy` works through a two-level outline by hand.

Two behaviours of the code are worth stating plainly; the model follows both:

- **Skipping titles.** Rendering skips a title whose buffer is empty or holds only whitespace (`main.py:221`). `Strings.IsSpace` is the character set of Python's `str.isspace`.
- **Statistics per call.** A record is yielded for every chunk that carries usage, so one call may report several, and all of them are added to the total (`main.py:299-304`).

`main.py:375` sits at column 0 in the file. It is read as the body of the `elif` at `main.py:374`, that is, the append to the buffer.

These definitions are not rows of the table; each is listed here with the code it stands for:

- `Statistics.Stats.Plus` stands for the five sums of `add` (`main.py:161-165`);
- `Statistics.Stats.TotalTokens` stands for the total-token figure (`main.py:172`);
- `Statistics.Zero` stands for the default counters (`main.py:143`) as used for the "Combined" total (`main.py:360`);
- `Strings.Strip` stands for `str.strip()` (`main.py:221`);
- `Books.Section` stands for the f-string of one heading and buffer (`main.py:221-222`);
- `Books.Parts` and `Books.Join` stand for the sections of the rendered titles and their concatenation (`main.py:219-224`);
- `Sections.FromUsage` stands for the record built from a usage block (`main.py:302-303`);
- `Sections.ChunkEvents` and `Sections.SectionEvents` stand for the chunk loop of `generate_section` (`main.py:295-304`);
- `Generation.Prompt` stands for the prompt `f"{title}: {content}"` (`main.py:369`);
- `Generation.Ratio` stands for `completed_sections / total_sections` (`main.py:377`).

What is proved about them is in the table.

## Model

| member | source | states |
|---|---|---|
| Statistics.Stats.InputSpeed | main.py:151-152 | the input speed is exactly 0 when the input time is 0; otherwise, multiplied by the time, it gives back the input tokens |
| Statistics.Stats.OutputSpeed | main.py:154-155 | the same two cases on the output side |
| Statistics.ZeroNeutral | main.py:143-149 | a record built with every counter at its default has 0 total tokens and zero speeds; adding a record into it gives that record's counters under the fresh record's own label |
| Statistics.PlusKeepsLabel | main.py:157-165 | `add` never changes the label of the record added into |
| Statistics.PlusCommutes | main.py:161-165 | adding b into a and adding a into b give the same counters |
| Statistics.PlusAssociates | main.py:161-165 | successive adds regroup freely |
| Statistics.TotalTokensAdd | main.py:172 | the reported total-token figure (input plus output tokens) of a sum is the sum of the figures |
| Statistics.AccumulateGrows | main.py:161-165 | adding records with non-negative counters keeps the label and never decreases any of the five counters |
| Statistics.AccumulateAppend | main.py:157-165 | adding one run of records and then another equals adding their concatenation |
| Statistics.MoveToEnd | main.py:161-165 | moving one record to the end of a run of adds leaves the counters unchanged |
| Statistics.AccumulateOrderIndependent | main.py:157-165 | two runs of adds over the same records, in any order (equal multisets), reach the same counters |
| Statistics.GenerationStatistics.constructor | main.py:143-149 | the six fields take the six given values |
| Statistics.GenerationStatistics.Add | main.py:157-165 | every counter grows by the other record's counter; the label and the other record stay as they were; a non-statistics argument cannot be passed, because of the parameter type |
| Outlines.OccursDepth | main.py:180-186 | depths in the tree start at 1 |
| Outlines.TitlesAppend | main.py:180-186 | flattening a concatenation of items flattens each part in turn |
| Outlines.LeavesAppend | main.py:366-380 | the generated items of a concatenation are those of each part, in order |
| Outlines.RenderOrderAppend | main.py:220-224 | the rendered entries of a concatenation are those of each part, in order |
| Outlines.SingleEntry | main.py:180-186 | a one-item mapping contributes exactly its item's titles, generated items and rendered entries |
| Outlines.RenderOrderTitles | main.py:180-186 | rendering lists exactly the flattened titles, in the same order |
| Outlines.RenderOrderDepth | main.py:215-225 | (t, l) is rendered from level `level` if and only if t is a key at depth l - level + 1; with level 1 the heading level is the depth |
| Outlines.TitlesOccur | main.py:180-186 | a title is flattened if and only if it is a key somewhere in the tree, whatever its value |
| Outlines.LeavesOccur | main.py:366-369 | (t, d) is generated if and only if t is a key at some depth whose value is the string d |
| Outlines.LeavesWithinTitles | main.py:361 | there are never more generated items than flattened titles, and every generated title is a flattened title |
| Outlines.FlattenStructure | main.py:180-186 | the append/extend loop returns exactly the pre-order title list `Titles` |
| Strings.TrimStart | main.py:221 | the result is a suffix of the input; what it drops is all whitespace; it is empty or starts with a non-space character |
| Strings.TrimEnd | main.py:221 | the result is a prefix of the input; what it drops is all whitespace; it is empty or ends with a non-space character |
| Strings.StripEmptyIffBlank | main.py:221 | `s.strip()` is empty if and only if every character of s is whitespace |
| Strings.Hashes | main.py:222 | `'#' * n` has length n and consists only of '#' |
| Books.JoinAppend | main.py:222-224 | joining two runs of text is joining each and concatenating |
| Books.JoinAllEmpty | main.py:221 | joining only empty pieces gives "" |
| Books.CoversAppend | main.py:221 | if every title of two lists has a buffer, so does every title of their concatenation |
| Books.MarkdownAppend | main.py:220-224 | rendering two lists of titles one after the other renders their concatenation |
| Books.MarkdownSingle | main.py:221-222 | a single title renders as its own section alone |
| Books.RenderOrderCovered | main.py:177 | buffers for every flattened title mean a buffer for every rendered entry |
| Books.PartsCovered | main.py:220-224 | the titles of a prefix, of one item and of its sub-mapping are all titles of the mapping |
| Books.MarkdownEntry | main.py:220-224 | an item renders as its heading and buffer (only if the buffer is not blank), then its dict value one level deeper (whether or not its heading was emitted), then the rest |
| Books.RenderOrderStep | main.py:220-224 | one more item adds its own entry and then the entries of its sub-mapping |
| Books.PrefixStepCovered | main.py:221 | every buffer one step of the loop reads exists |
| Books.MarkdownPrefixStep | main.py:220-224 | one more item appends its section and then its sub-mapping's Markdown |
| Books.MarkdownAllBlank | main.py:221 | while every listed buffer is blank (for instance straight after construction) nothing is rendered |
| Books.Book.constructor | main.py:175-177 | the buffer keys are exactly the flattened titles and every buffer is ""; repeated titles share one buffer |
| Books.Book.UpdateContent | main.py:188-189 | the title's buffer becomes its old value followed by the new text and no other buffer changes, so a valid book stays valid; an unknown title (KeyError in the source) changes nothing and is reported |
| Books.Book.MarkdownContent | main.py:215-225 | the loop with its recursive call returns exactly `Markdown` of the rendered entries of the given mapping at the given level |
| Books.Book.GetMarkdownContent | main.py:215-217 | the whole book is rendered from level 1 |
| Sections.ChunkEventsShape | main.py:295-304 | one chunk yields at most two events: at most one text delta, and after it at most one statistics record |
| Sections.SectionEventsShape | main.py:295-304 | no empty text delta is ever yielded, every record carries the section label, and a stream of n chunks yields at most 2n events |
| Sections.TextAppend | main.py:295-298 | the text of two runs of events is the text of each, concatenated |
| Sections.ReportsAppend | main.py:299-304 | the records of two runs of events are the records of each, in order |
| Sections.SectionEventsAppend | main.py:295-304 | the filter works chunk by chunk: a stream split in two yields the two halves' events |
| Sections.TextKept | main.py:296-298 | dropping missing and empty contents loses no text: the deltas spell out the whole stream |
| Sections.ChunkReports | main.py:299-304 | one chunk reports a record exactly when both x_groq and its usage are present |
| Sections.ReportsMatchUsages | main.py:299-304 | one record per usage-carrying chunk, in order, each built from that chunk's usage |
| Generation.LeafTextAppend | main.py:366-380 | the text a title receives from two runs of calls is the text from each, in order |
| Generation.LeafReportsAppend | main.py:366-380 | the records of two runs of calls are those of each, in order |
| Generation.LeafTextNotLeaf | main.py:366-375 | a title that names no generated item never receives text |
| Generation.LeafTextUnique | main.py:366-375 | a title that names exactly one generated item receives exactly the whole streamed text of that item's own call |
| Generation.RouteKeys | main.py:375 | delivering text never adds or removes a buffer |
| Generation.RouteSingle | main.py:370-375 | one call's text is appended to its own title's buffer and to no other |
| Generation.RouteAppend | main.py:366-380 | routing the calls for one run of items and then another routes the calls for their concatenation |
| Generation.RouteBuffers | main.py:366-380 | after routing, each buffer is its old value followed by exactly the text of the calls made for its title |
| Generation.RatioInUnit | main.py:376-377 | after at least one completed section, and never more than the total, the progress value lies in (0, 1] |
| Generation.StreamLeaf | main.py:370-375 | the chunk loop appends the concatenated deltas to the title's buffer and adds the records to the total, in order; nothing else changes |
| Generation.LeavesStep | main.py:366-380 | one more item adds exactly its own generated items |
| Generation.TotalStep | main.py:372 | adding the records of one run of calls and then another adds the records of both |
| Generation.ProgressStep | main.py:376-378 | the progress values so far, followed by those of a sub-walk, are still one per completed section |
| Generation.StreamedNone | main.py:362 | before any call the walk state is the initial one |
| Generation.StreamedStep | main.py:366-380 | streaming one run of items and then another is streaming their concatenation: buffers, total, counter and progress values all compose |
| Generation.GenerateLeaf | main.py:367-378 | a string item is generated with prompt "title: description"; its text goes to its buffer and its records to the total |
| Generation.StreamEntry | main.py:366-380 | a string item is generated, a dict item walked one level down, any other item skipped; the state advances by exactly that item's calls |
| Generation.StreamSectionContent | main.py:364-380 | the whole walk leaves each buffer, the total, completed_sections and the progress values as `Route`, `LeafReports` and `Ratio` say, every progress value in (0, 1] |
| Generation.GenerateBook | main.py:357-382 | each buffer is exactly the text of the calls made for its title; the total is the "Combined" record plus every reported record; total_sections is the number of flattened titles; completed_sections is the number of string items and never exceeds it; the k-th progress value is (k+1)/total_sections and lies in (0, 1] |
| Scenarios.SampleTitles | main.py:180-186 | the sample outline flattens to A, B, C, and only A and C are generated |
| Scenarios.SampleSection | main.py:222 | the section of title A at level 1 with buffer "Hi!" is "# A\nHi!\n\n" |
| Scenarios.SampleMarkdown | main.py:215-225 | with B's buffer blank, the book renders as A's section followed by C's section one level down, and B contributes nothing |
| Scenarios.SampleBook | main.py:175-177 | a fresh one-title book, after appending "Hi" and then "!", renders as "# A\nHi!\n\n" |

## Left out

- The Streamlit interface is not modelled:
  - the CSS and JS blob, `st.empty` placeholders, `display_content`, `display_structure` and `display_book_outline`;
  - spinners, download buttons, the topic-length check, and the final `progress_bar.progress(1.0)`.
  
  It is presentation only. The walk returns the progress values it would show.
- The Groq client calls (`generate_book_structure`, and the `create(...)` call in `generate_section`) are network I/O. The section stream is the `provider` parameter. The outline call and its statistics record (`structure_stats`, which is only displayed and never added to the total) are not modelled.
- `json.loads` and the `JSONDecodeError` branch are not modelled. The model starts from an already-parsed outline.
- A top-level JSON value that is not an object is not modelled. In the source, `Book.__init__` would then raise an `AttributeError` on `.items()` (`main.py:177`, `main.py:182`). That error is not caught, because the `try` block catches only `JSONDecodeError`. The `Outline` type rules this case out.
- The outline is a sequence of items with no uniqueness constraint. A parsed JSON object has unique keys on each level; every result holds for any sequence, so it holds for those too.
- `create_markdown_file` and `create_pdf_file` (BytesIO, the markdown library and WeasyPrint) are foreign calls.
- `__str__` is not modelled, except for its total-token figure (`Stats.TotalTokens`). Its `:.2f` float formatting and floating-point rounding are not modelled: times are reals.
- Configuration and environment loading are not modelled.
- Transport failures inside a stream are not modelled: every provider stream ends normally. The source catches none of them, so such a failure would end the run with the text already appended kept in the buffers.
- Python generators produce events lazily. The model computes each call's events as a whole sequence and then runs the loop over it, which gives the same order of effects.
- `chunk.choices[0]` is assumed to exist. A chunk is modelled as its optional content and its optional `x_groq`.
- Generation.Ratio: the `total == 0` guard is never reached by the walk. `Ratio` is only taken after a completed section, and there are never more of those than flattened titles (`Outlines.LeavesWithinTitles`).
- Statistics.AccumulateGrows: the non-negativity of counters is a requirement here. The source does not enforce it; the model allows negative times.
