# Quiz game: a Dafny model of the parser, the synchronised shuffle and the grading loop

The quiz program reads one quiz document and turns its text into a quiz. It
takes the title from the first line. It extracts numbered questions
(`<digits>. <text>`), lettered answer options (`<letter>) <text>`) and an
answer key (`<digits>) <letter>`) with three `re.findall` patterns. It cuts the
flat option list into one group per question. It then shuffles questions,
option groups and key letters together with 30 random transpositions. Last, it
asks each question in turn, compares the reply with the key letter without
regard to case, and counts the score.

The model is in six modules for the components of `main.py`, plus `Wrappers`:

- `Wrappers` (`wrappers.dfy`): `Option` and `Result`, used for the exceptions the program raises.
- `Chars` (`chars.dfy`): the letter class `[a-zA-Zа-яА-ЯёЁ]`, ASCII digits, Python whitespace and line boundaries, and lower-casing.
- `Extract` (`extract.dfy`): `parse_title` and the three `re.findall` passes, written as left-to-right scanners over text positions.
- `Chunking` (`chunking.dfy`): the per-question grouping of the options.
- `Shuffle` (`shuffle.dfy`): `shuffle`, as an in-place method over three arrays, specified by `ApplyDraws` on sequences.
- `QuizData` (`quiz.dfy`): `get_data_from_quiz`, with its error paths.
- `Session` (`session.dfy`): the question loop of `main`. It is one grading step, a loop method, and the score count.

The random indices of the shuffle are a parameter: a sequence of `Draw(a, b)`
pairs, each index below the number of questions. The user's replies are a
parameter too: one string per question.

Three behaviours of the code worth noting:
- An empty text makes `parse_title` raise IndexError. It does not return an empty title.
- A reply is correct when the whole reply, lower-cased, equals the lower-cased key. The code does not look for the first letter-bearing token of the reply.
- The correction shown after a miss is the first option whose first character equals the key exactly, with case. The lookup is not case-insensitive.

## Model

| member | source | states |
|---|---|---|
| `Chars.LowerChar` | main.py:113 | upper-case quiz letters lower-case to quiz letters; every other character is unchanged |
| `Chars.Lower` | main.py:113 | `str.lower` keeps the length, and each character is lower-cased as `LowerChar` does |
| `Chars.Matches` | main.py:113 | only a one-character reply can equal a one-letter key after lower-casing, and the key itself always does |
| `Chars.MatchesIff` | main.py:113 | a reply matches a key exactly when it is one character that lower-cases to the key's lower case |
| `Chars.MatchesEitherCase` | main.py:113 | for any key, capital or not, its lower case and every capital with the same lower case are accepted, as is the key itself |
| `Chars.LowerCharMergesOnlyCases` | main.py:113 | two different characters lower-case alike only when they are a capital quiz letter and its lower-case partner |
| `Chars.MatchesOnlyKeyLetter` | main.py:113 | a matching reply is one character: the key itself or the other case of the key's letter; no other letter matches |
| `Extract.FirstLine` | main.py:13 | `splitlines()[0]`: a prefix of the text, free of line boundaries, ending at the first boundary or at the end |
| `Extract.Strip` | main.py:13 | the result is the input less a whitespace prefix and suffix, and neither starts nor ends with whitespace |
| `Extract.StripUnique` | main.py:13 | that characterisation of `strip` has only one solution |
| `Extract.ParseTitle` | main.py:11-14 | fails exactly on the empty text; otherwise the title is the stripped first line and holds no line boundary |
| `Extract.ParseTitleExample` | main.py:11-14 | `" Quiz \nMore"` has the title `"Quiz"` |
| `Extract.FirstLineExample` | main.py:13 | the first line of `" Quiz \nMore"` is `" Quiz "` |
| `Extract.StripExample` | main.py:13 | `" Quiz "` strips to `"Quiz"` |
| `Extract.RestOfLineAt` | main.py:17-28 | no question or option match starts at a newline; a match has the pattern's shape (`QuestionShape`, `OptionShape`), and the pattern's shape ended by a newline or by the end of the text is a match (`QuestionLineMatch`, `OptionLineMatch`) |
| `Extract.RestOfLineShape` | main.py:17-28 | a match at a position is a non-empty, newline-free tail of its line; an option also starts with a letter and `) `; a question is preceded by digits and `. ` |
| `Extract.QuestionShape` | main.py:19 | a question match is preceded on its line by digits from the match position and `. `, and runs to the end of the line |
| `Extract.OptionShape` | main.py:26 | an option match is the whole rest of the line from a quiz letter followed by `) ` |
| `Extract.QuestionLineMatch` | main.py:19 | a line `<digits>. <q>` matches at its start and captures exactly `q`, whether a newline or the end of the text follows |
| `Extract.OptionLineMatch` | main.py:26 | a line `<L>) <o>` matches at its start and yields exactly `<L>) <o>`, whether a newline or the end of the text follows |
| `Extract.ScanItemLine` | main.py:19-27 | a written question or option line yields its item, and the scan resumes after the line |
| `Extract.RenderedItemsAt` | main.py:19-27 | a scan that starts where consecutive question or option lines begin finds exactly their items, in order, and then goes on with the text after them |
| `Extract.ParseRenderedItems` | main.py:17-28 | text written as lines `<digits>. <q>` parses back to exactly the questions; text written as lines `<L>) <o>` to exactly the options, in order |
| `Extract.ScanLastItem` | main.py:19-27 | a question or option on the last line of the text, with no newline after it, is the last item found |
| `Extract.ParseRenderedItemsUnterminated` | main.py:17-28 | the round trip also holds when the last line has no newline: its item is found after those of the lines before it |
| `Extract.FindAll` | main.py:19-27 | every item found is non-empty and newline-free; every option item starts with a quiz letter followed by `) ` |
| `Extract.ParseQuestions` | main.py:17-21 | every question is non-empty and holds no newline |
| `Extract.ParseAnswers` | main.py:24-28 | every option is `<letter>) ` followed by at least one non-newline character |
| `Extract.FindAllByLines` | main.py:19-27 | the scanner yields, in document order, exactly the leftmost match of each line |
| `Extract.AtMostOnePerLine` | main.py:19-27 | questions and options number at most one per line of the text |
| `Extract.ParseQuestionsExample` | main.py:19-20 | `"1. Why?\nx"` yields exactly `["Why?"]` |
| `Extract.ParseQuestionsLastLineExample` | main.py:19-20 | `"1. Q"`, with no newline, yields exactly `["Q"]` |
| `Extract.KeyAt` | main.py:33 | a key match is `<digits>) <letter>`, captures the letter, and is at least four characters long; the converse is `KeyMatchAt` |
| `Extract.KeyMatchAt` | main.py:33 | `<digits>) <letter>` written at a position is a match there that captures the letter, whatever follows the letter |
| `Extract.ScanKeyAt` | main.py:33-34 | a written key yields its letter, and the scan resumes right after the letter, so a line may hold several keys |
| `Extract.FindKeys` | main.py:33-34 | the scan from a position finds at most as many keys as characters remain |
| `Extract.FindKeysLetters` | main.py:33-34 | every key is a quiz letter, and there are at most a quarter as many keys as characters |
| `Extract.ParseCorrectAnswers` | main.py:31-35 | every key is a single quiz letter; there are at most a quarter as many keys as characters |
| `Extract.ScanKeyLine` | main.py:33-34 | a key line `<digits>) <x>` followed by a newline yields `x`, and the scan resumes after the line |
| `Extract.RenderedKeysAt` | main.py:33-34 | a scan that starts where consecutive key lines begin finds exactly their letters, in order |
| `Extract.ParseRenderedKeys` | main.py:33-34 | a key written as lines `<digits>) <x>\n` parses back to exactly its letters, in order |
| `Extract.ParseCorrectAnswersExample` | main.py:33-34 | `"1) b\n2) a\n"` yields `['b', 'a']` |
| `Extract.TwoKeysOneLine` | main.py:33-34 | `"1) a 2) b"` yields `['a', 'b']` |
| `Chunking.Chunk` | main.py:56-59 | concatenating the groups gives back the options; every group has 1 to `size` options, all but the last exactly `size` |
| `Chunking.ChunkIsSliceComprehension` | main.py:56-59 | `Chunk` equals the clamped-slice comprehension over `range(0, len, size)` |
| `Chunking.ChunkCount` | main.py:56-59 | the number of groups is ceil(len / size) |
| `Chunking.ChunkExact` | main.py:56-59 | `q * size` options give exactly `q` groups of `size` |
| `Chunking.ChunkAtLeast` | main.py:56-59 | at least `q * size` options give at least `q` groups |
| `Chunking.OptionsPerQuestion` | main.py:55 | `len(answers) // len(questions)` is the rounded-down quotient: size times questions is at most the options, and one more group per question would exceed them |
| `Chunking.OptionsPerQuestionZero` | main.py:55-58 | the group size `len(answers) // len(questions)` is zero exactly when there are fewer options than questions |
| `Chunking.GroupsCoverQuestions` | main.py:55-59 | there are never fewer groups than questions |
| `Chunking.GroupsWhenUniform` | main.py:55-59 | with `m` options per question there is exactly one group of `m` options per question |
| `Chunking.ChunkExample` | main.py:55-59 | two questions with eight options give two groups of four, in order |
| `Shuffle.Swapped` | main.py:45 | a swap moves index `j` to the transposed index, keeps the multiset, and does nothing when `a == b` |
| `Shuffle.ApplyDraws` | main.py:40-45 | the swaps keep the length of the list |
| `Shuffle.ApplyDrawsAt` | main.py:40-45 | after the swaps, index `j` holds the old element at `Source(draws, j)`, which depends only on the draws |
| `Shuffle.SourceTargetInverse` | main.py:40-45 | `Source` and `Target` are inverse bijections of the indices of the first list |
| `Shuffle.SourceBeyond` | main.py:40-45 | indices past the first list's length are never moved |
| `Shuffle.ApplyDrawsPermutes` | main.py:40-45 | every list is a permutation (same multiset) of itself after the swaps |
| `Shuffle.ShuffleKeepsAlignment` | main.py:40-45 | the question, option group and key at old index `i` are together at new index `Target(draws, i)`; longer lists keep their tails |
| `Shuffle.ApplyDrawsStep` | main.py:40-45 | one more draw is one more swap |
| `Shuffle.SwapInPlace` | main.py:45 | the array after the swap is `Swapped` of the array before it |
| `Shuffle.ShuffleInPlace` | main.py:38-45 | each array afterwards is `ApplyDraws` of its old contents, with the same draws for all three |
| `QuizData.Extracted` | main.py:48-61 | the three errors happen exactly on an empty text, no question, and fewer options than questions, and it succeeds exactly when none applies; the groups are the options cut into slices of `len(answers) // len(questions)`, at least as many as questions, flattening back to the options, every option well formed |
| `QuizData.ShuffledQuiz` | main.py:63 | the shuffled quiz keeps the title, every list's length, and every list's multiset |
| `QuizData.GetDataFromQuiz` | main.py:48-64 | given the default 30 draws (unconstrained when there is no question, since the program raises before drawing), the method fails as `Extracted` does on an empty text, no question or too few options, or with a key index out of range exactly when a draw passes the key list; otherwise it returns the extracted quiz shuffled by the draws |
| `QuizData.LoadedQuizAligned` | main.py:63 | after loading, each question, its option group and its key have moved to one common index |
| `Session.FirstWithKey` | main.py:118-121 | the first option whose first character is the key, or the number of options if there is none |
| `Session.Correction` | main.py:118-125 | the correction is the first option whose first character is the key when there is one, and the bare key exactly when no option starts with the key |
| `Session.Step` | main.py:113-125 | the score rises by one exactly on a match; a miss keeps it and shows the first option that starts with the key, or the bare key; a miss with an empty option raises |
| `Session.CountCorrect` | main.py:104-114 | the score after `n` questions is at most `n` |
| `Session.HitsStep` | main.py:113-114 | question `n` adds one to the set of correctly answered questions exactly when its reply matches |
| `Session.CountCorrectIsSize` | main.py:113-114 | the score is the number of questions whose reply matches the key |
| `Session.QuestionFails` | main.py:107-125 | when the question has an option group and a key, it fails exactly when its grading step raises |
| `Session.FeedbackFor` | main.py:113-125 | the feedback is what the grading step of that question shows, whatever the score so far; it is Right, with one point added, exactly when the reply matches the key |
| `Session.RunSession` | main.py:104-132 | the loop fails at the first question that raises, and only then; otherwise the score is the number of matches, at most `len(questions)`, with the feedback of each question; no questions give `0 / 0` |
| `Session.StepExample` | main.py:113-125 | `a` and `A` score on key `a`; `b` shows `a) Paris`; with no matching option the bare key is shown |

## Left out

- Reading the configuration (`PATH_DIR`), listing the directory, picking a file at random, and the extension dispatch: these are configuration and filesystem glue.
- Reading `.txt` and `.docx` files: file and foreign-library I/O. The text the extractors receive is a parameter.
- `print`, `input` and `time.sleep`: console I/O and pacing. The replies are a parameter, one per question; end of input is not modelled.
- `random.randrange`: the drawn indices are a parameter. Nothing is stated about how the shuffle is distributed.
- Full Unicode `\d` and `str.lower`: digits are ASCII `0`-`9`. Lower-casing maps only ASCII `A`-`Z`, `А`-`Я` and `Ё`; other characters are unchanged.
- Shuffle.ShuffleInPlace: takes exactly three lists, which is the only way the program calls `shuffle`; the loop over `*args` is written out as three swaps.
- QuizData.GetDataFromQuiz: when a swap raises IndexError part-way, the model returns only the error. The partly shuffled lists are discarded, as they are in the program.
- Key letters are `char` values. The program keeps them as one-character strings.
