# File statistics of `FileSizeCalculator.analyzeFile`

`FileSizeCalculator` is a Swing window. It lets the user pick a text file and
shows statistics about it: the size in KB or MB, the number of lines, words and
non-blank characters, and the average word length. It also computes the longest
word, although the card that would show it is commented out. This project
models that computation and proves what the statistics mean.

Modules:

- `Wrappers`: a `Result` type for values that may instead be an exception's message.
- `JavaText`: Java strings as sequences of UTF-16 code units. It covers
  `String.trim`, the regex class `\s`, `split("\\s+")` (the behaviour of
  `Pattern.split` with limit 0) and `replaceAll("\\s+", "")`.
- `LineReader`: how `BufferedReader.readLine` cuts decoded text into lines at
  `\n`, `\r` or `\r\n`.
- `FileSizeCalculator`: the size display, the reading loop (a method), the
  longest-word loop (a method), the average, the whole analysis as a function
  `Analysis`, the method `AnalyzeFile`, and the properties of the statistics.
- `AnalysisExamples`: the analysis of small files of simple shapes.

Two notions of blank matter:

- `trim` drops every code unit up to U+0020, control characters included.
- `\s` holds only six of those code units.

Every `\s` code unit is trimmable, so the trimmed content never begins or ends
with `\s`. Because of this, the split yields exactly the maximal non-`\s` runs,
and never an empty word.

## Model

| member | source | states |
|---|---|---|
| FileSizeCalculator.SizeDisplay | src/FileSizeCalculator.java:218-224 | The unit is MB exactly when the size is at least 1024*1024 bytes. The amount times the unit's byte count is the size. An MB amount is at least 1 and a KB amount is below 1024. |
| FileSizeCalculator.Joined | src/FileSizeCalculator.java:232 | The built content is as long as all lines together plus one space per line. |
| FileSizeCalculator.ReadContent | src/FileSizeCalculator.java:228-234 | The reading loop builds each line read followed by one space, and counts exactly the lines `readLine` yields. |
| FileSizeCalculator.WordsOfJoined | src/FileSizeCalculator.java:232 | The words of the built content are the words of each line in turn. |
| FileSizeCalculator.FactorOfJoined | src/FileSizeCalculator.java:232 | A piece of the built content without `\s` lies inside one of the lines. |
| FileSizeCalculator.WordsWithinLines | src/FileSizeCalculator.java:231-241 | Every word occurs inside a single line read, so no word spans two lines. |
| FileSizeCalculator.WordsOfTrimmed | src/FileSizeCalculator.java:237-240 | After trimming, the words (none for empty content, else the split) are exactly the maximal non-`\s` runs. |
| FileSizeCalculator.WordsAreRuns | src/FileSizeCalculator.java:237-241 | The words of a file are the maximal runs outside `\s` of its trimmed content, in order. Each is non-empty and holds no `\s`. |
| FileSizeCalculator.LineCount | src/FileSizeCalculator.java:230-234 | The line count is one per terminated line, whatever mix of `\n`, `\r` and `\r\n` ends them, plus one for a non-empty last line without a terminator. An empty file has 0 lines. |
| FileSizeCalculator.NoWordsIffBlank | src/FileSizeCalculator.java:237-253 | There are no words exactly when every code unit of the file is at most U+0020. Then the character count and the average are 0, whatever the line count. |
| FileSizeCalculator.CharCountIsWordLengths | src/FileSizeCalculator.java:240-242 | The character count is the total length of the words, hence at least the word count. |
| FileSizeCalculator.AverageWordLength | src/FileSizeCalculator.java:253 | With words, the average times the word count is the character count. Without words it is 0. |
| FileSizeCalculator.AverageAtLeastOne | src/FileSizeCalculator.java:253 | When there are at least as many characters as words, a non-zero average is at least 1. It is 0 exactly when there are no words. |
| FileSizeCalculator.AverageBounds | src/FileSizeCalculator.java:240-253 | The average of a file is 0 exactly when it has no words, and otherwise at least 1. |
| FileSizeCalculator.LongestIsFirstLongest | src/FileSizeCalculator.java:245-250 | The strict-`>` scan yields `""` for no words. Otherwise it yields a word that no word exceeds and that every earlier word is shorter than: the first of the longest. |
| FileSizeCalculator.LongestWord | src/FileSizeCalculator.java:245-250 | The longest-word loop returns `Longest` of the words, which is the first of the longest words, or `""` when there are none. |
| FileSizeCalculator.LongestWordIsFirstLongest | src/FileSizeCalculator.java:245-250 | A file's longest word is the first of its longest words, or `""`. |
| FileSizeCalculator.Words | src/FileSizeCalculator.java:240 | No words for empty content, otherwise `content.split("\\s+")`. |
| FileSizeCalculator.Longest | src/FileSizeCalculator.java:245-250 | The value of `longestWord` after the scan: a word replaces the current one only when strictly longer. |
| FileSizeCalculator.Content | src/FileSizeCalculator.java:231-237 | The content: the lines `readLine` yields, each followed by one space, then trimmed. |
| FileSizeCalculator.Analysis | src/FileSizeCalculator.java:215-253 | The statistics of a byte count and a text: the size display, the line count, the word count, the length after removing `\s`, the average and the longest word. |
| FileSizeCalculator.AnalyzeFile | src/FileSizeCalculator.java:215-253 | A size failure gives only its message, checked first. A read failure gives only its message. Otherwise the result is the statistics of the byte count and the text. |
| JavaText.IsSpace | src/FileSizeCalculator.java:240-242 | The regex class `\s`: space, `\t`, `\n`, `\x0B`, `\f` and `\r`. |
| JavaText.IsTrimmable | src/FileSizeCalculator.java:237 | What `trim` removes: any code unit up to U+0020, control characters included. |
| JavaText.Trim | src/FileSizeCalculator.java:237 | `trim` returns a piece of its input whose cut-off ends are all at most U+0020. It is empty exactly when the whole input is, and otherwise begins and ends above U+0020. |
| JavaText.TrimOfPadded | src/FileSizeCalculator.java:237 | Trimming a piece padded with trimmable code units on both sides gives back that piece. |
| JavaText.TrimIdempotent | src/FileSizeCalculator.java:237 | Trimming twice is trimming once. |
| JavaText.Tokens | src/FileSizeCalculator.java:240 | Each maximal non-`\s` run is non-empty and holds no `\s`. |
| JavaText.TokensOfSeparated | src/FileSizeCalculator.java:232-240 | The words of two texts joined by a space are the words of the first, then those of the second. |
| JavaText.Split | src/FileSizeCalculator.java:240 | No piece of `split("\\s+")` holds a `\s` code unit. |
| JavaText.SplitOfEmpty | src/FileSizeCalculator.java:240 | Splitting the empty string gives one empty word, which is why empty content is special-cased. |
| JavaText.SplitOfTrimmed | src/FileSizeCalculator.java:240 | A non-empty string with no `\s` at either end splits into exactly its maximal non-`\s` runs. |
| JavaText.RemoveSpaces | src/FileSizeCalculator.java:242 | Removing `\s` leaves no `\s` and never lengthens the text. |
| JavaText.RemoveSpacesIsConcatOfTokens | src/FileSizeCalculator.java:242 | Removing every `\s` leaves exactly the words, run together. |
| JavaText.ConcatLength | src/FileSizeCalculator.java:242 | The words run together are as long as their lengths summed. |
| LineReader.ReadLine | src/FileSizeCalculator.java:231 | One `readLine` returns the longest prefix without `\n` or `\r`. It consumes one terminator: `\n`, `\r\n`, or `\r` not followed by `\n`. |
| LineReader.ReadLines | src/FileSizeCalculator.java:231 | There are no lines exactly when the text is empty, never more lines than code units, and no line holds a terminator. |
| LineReader.ReadLinesOfTerminated | src/FileSizeCalculator.java:231 | Lines each ended by its own terminator are read back one by one, and reading then goes on with what follows. The only exception is a lone `\r` directly followed by `\n`, which reads as one `\r\n`. |
| LineReader.ReadLinesRoundTrip | src/FileSizeCalculator.java:231 | Reading back lines that each end in `\n`, `\r` or `\r\n`, in any mix, gives those lines. The one exception is a lone `\r` followed by an empty line ended by `\n`. |
| LineReader.UnterminatedLastLine | src/FileSizeCalculator.java:231 | After lines ended by any mix of terminators, a last line without a terminator is still read as one more line. |
| LineReader.ReadLineParts | src/FileSizeCalculator.java:231 | The line one `readLine` returns, the terminator it consumes and the unread rest make up the input. |
| LineReader.LinesAndEnds | src/FileSizeCalculator.java:231 | For every text, the reader drops only terminators. The text is the lines it yields, each followed by the terminator consumed after it, except a non-empty unterminated last line. No lone `\r` in it is followed by an empty line ended by `\n`. |
| AnalysisExamples.EmptyFile | src/FileSizeCalculator.java:218-253 | An empty file has 0 KB, no lines, no words, no characters, average 0 and longest word `""`. |
| AnalysisExamples.OneLineTwoWords | src/FileSizeCalculator.java:228-253 | One unterminated line of two plain words separated by a space gives: one line, those two words, their summed length, half of it as the average, and the first word unless the second is strictly longer. |
| AnalysisExamples.OneWordPerLine | src/FileSizeCalculator.java:228-242 | Plain words each on its own line, ended by any mix of terminators, give one line and one word per line. The words are the lines, and the character count is their total length. |

## Left out

- The Swing window, its panels, cards, hover effects and file chooser are presentation only. Updating the stats panel is not modelled either.
- The error dialog is not modelled. A failure is a `Failure` carrying the exception's message.
- Obtaining the size (`Files.size`) and reading the file (`FileReader`, `BufferedReader`) are I/O. The byte count and the decoded text are inputs, each either a value or a failure. A read that fails part-way counts as a failure, since no statistics are shown then.
- Decoding bytes with the platform charset is not modelled: the text is given as UTF-16 code units. A character outside the Basic Multilingual Plane therefore counts as two code units, as `length()` counts it.
- Closing the reader, including when an exception occurs, is resource handling and not part of the model.
- FileSizeCalculator.SizeDisplay: the amounts are exact reals, not doubles. The unit choice is still exact, because dividing by 1024 is exact in binary and `long`-to-`double` rounding keeps the order with 1024*1024.
- FileSizeCalculator.AverageWordLength: the average is the exact quotient rather than the rounded `double`.
- The `%.2f`, `%.1f` and `%,d` formatting of the displayed values is left out.
- The Java regex engine in general is not modelled. Only `\s` and its `split` and `replaceAll` uses here are defined.
- Java `int` widths are not modelled. The counts cannot exceed the length of the built content, which a Java string already bounds below 2^31.
- An `OutOfMemoryError` is not an `Exception` and would escape the handler. The model has no such failure.
