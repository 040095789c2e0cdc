# waveform: decode-and-plot core in Dafny

`waveform` reads 16-bit PCM WAV files and uses gnuplot to draw their
waveforms as an SVG image. This project models the integer and string work in
the middle of that pipeline, in `waveform.go`:

- The sample decoder of `loadAudio` turns every byte after the header, up to
  end of file, into `int16` samples. It reads them two at a time as little-endian words and
  reinterprets each word as two's complement. An unpaired trailing byte is
  dropped.
- `min` and `minAudioSize` compute the shortest track length.
  `plotAudios` aligns all tracks to that length.
- The row loop of `plotAudios` writes one line per aligned index to the
  scratch data file. Each line holds a timestamp, then one `%d` value per
  track in track order.
- The gnuplot script of `plotAudios` is a fixed list of directives plus a
  `plot` line. The `plot` line has one sub-expression per track name; the
  i-th one plots column i + 2 and is titled with that name. The script of
  `plotAudio` is modelled as written.
- `gnuplot` joins the directives with `;` into its single argument.

Modules, one per concern:

| file | module | models |
|---|---|---|
| `text.dfy` | `Text` | `strings.Join`, `%d` formatting, and the readers that undo them (split on one character, decimal parse) |
| `pcm.dfy` | `Pcm` | the decode loop of `loadAudio`, with the encoder that inverts it |
| `align.dfy` | `Align` | `min` and `minAudioSize` |
| `table.dfy` | `Table` | the table rows of `plotAudios`, and how a reader reads them back |
| `script.dfy` | `Script` | plot sub-expressions, the directive lists of both plot functions, and the join done by `gnuplot` |
| `waveform.dfy` | `Waveform` | `plotAudios` end to end, and how its script agrees with its table |

The temporary file is modelled by the text written to it, and its name is a
parameter, `dataPath`. The `float32` timestamp printed with `%f` is kept
abstract as `stamp(i)` for row i. The readers `Split` and `ParseInt` are not
in the Go code. They are the reference view of a consumer of the produced
text, and the round-trip lemmas are stated against them.

## Model

| member | source | states |
|---|---|---|
| Pcm.LittleEndianUint16 | waveform.go:39 | the first byte is the low-order byte and the second the high-order byte of the 16-bit word |
| Pcm.PutUint16 | waveform.go:39 | the inverse of the little-endian read: the two bytes it produces read back as the same word |
| Pcm.Int16Of | waveform.go:40 | int16(u) agrees with u modulo 2^16 and is negative exactly when bit 15 of u is set |
| Pcm.Uint16Of | waveform.go:40 | the reverse conversion agrees with its input modulo 2^16 |
| Pcm.ReinterpretRoundTrip | waveform.go:40 | the two conversions are inverse bijections between uint16 and int16 |
| Pcm.SampleOf | waveform.go:39-40 | the sample of a byte pair agrees with lo + 256 * hi modulo 2^16 and is negative exactly when the high byte is 0x80 or more |
| Pcm.PcmSamples | waveform.go:38-41 | n data bytes give exactly n / 2 samples, rounded down |
| Pcm.PcmSampleAt | waveform.go:38-41 | sample k is built from bytes 2k (low) and 2k+1 (high), so samples follow byte order |
| Pcm.TrailingByteDropped | waveform.go:38 | an unpaired trailing byte adds no sample and causes no error |
| Pcm.EncodePcm | waveform.go:38-41 | the encoder that inverts decoding writes two bytes per sample |
| Pcm.DecodeEncode | waveform.go:38-41 | decoding the encoding of any samples returns those samples |
| Pcm.EncodeDecode | waveform.go:38-41 | encoding the decoded samples returns every byte that formed a pair |
| Pcm.DecodeData | waveform.go:38-41 | the loop yields n / 2 samples; sample k is the int16 of data[2k] + 256 * data[2k+1]; the result equals the decoder specification |
| Pcm.DecodeExample | waveform.go:38-41 | the bytes 00 00, 01 00, FF FF decode to 0, 1 and -1 |
| Align.Min | waveform.go:80-85 | the result is at most both arguments and equals one of them |
| Align.MinLength | waveform.go:87-94 | for a non-empty list, the result is at most every track length and equals the length of some track |
| Align.MinAudioSize | waveform.go:87-94 | the running-minimum loop needs a non-empty list, is at most every track length, equals some track length, and matches the specification fold |
| Align.AlignExample | waveform.go:87-94 | tracks of 100 and 137 samples align to 100 |
| Table.FitsIff | waveform.go:103-109 | the in-bounds condition of the row loop means exactly that no track is shorter than the row count |
| Table.FitsLess | waveform.go:105 | if every track has n samples, every index below n is readable in every track |
| Table.RowFieldAt | waveform.go:108-109 | the value field for track j of row i is `%d` of audios[j][i], and i is in bounds for track j |
| Table.WriteRow | waveform.go:106-111 | the inner loop appends exactly the row specification `RowLine` to what is already written: the timestamp, then a blank and the value of every track in order |
| Table.WriteTable | waveform.go:103-112 | the row loop reads only indices below minSize and writes exactly the table specification `TableText`: each row `RowLine` and a newline, for every index below minSize |
| Table.RowSplits | waveform.go:107-111 | splitting a row on blanks gives the timestamp followed by one field per track, in track order; a row has no newline |
| Table.RowNoEmptyField | waveform.go:107-109 | with a non-empty timestamp no field of a row is empty, so a reader that merges blank runs sees the same columns |
| Table.Lines | waveform.go:105-112 | the table has exactly n lines for n aligned indices |
| Table.LinesAt | waveform.go:105-112 | line i of the table is row i |
| Table.TableSplits | waveform.go:105-112 | splitting the table on newlines gives its lines in index order, then the empty text after the last newline |
| Table.TableReadsBack | waveform.go:105-112 | the table has exactly n lines; field 0 of line i is the timestamp of i; field j + 1 parses back to audios[j][i] |
| Text.Join | waveform.go:72 | `strings.Join` as written: no parts give the empty text; otherwise the first part leads the result and the last part ends it |
| Text.SplitJoin | waveform.go:72 | splitting a join on its one-character separator recovers the parts, if no part contains the separator |
| Text.JoinFree | waveform.go:131 | a join whose parts and separator avoid a character also avoids it |
| Text.FormatInt | waveform.go:109 | `%d` output is non-empty and starts with '-' exactly for negative values |
| Text.ParseFormatInt | waveform.go:109 | decimal parsing undoes `%d` for every integer |
| Text.FormatIntPlain | waveform.go:109 | `%d` output never contains a blank, newline, comma or semicolon |
| Script.PlotSubExpression | waveform.go:123-128 | the format string as written: the quoted file name, `every 30 using 1:` and the column lead; the title clause and `with lines` end it |
| Script.TrackPlots | waveform.go:121-129 | one sub-expression per name, in input order; the i-th plots column i + 2 with names[i] as its title |
| Script.BuildPlots | waveform.go:121-129 | the append loop produces one sub-expression per name; the i-th uses column i + 2 and title names[i] |
| Script.SubExpressionFree | waveform.go:123-128 | a sub-expression contains no ',' or ';' unless the file name or title does |
| Script.PlotLine | waveform.go:131 | `plot %s` as written: the line starts with "plot " followed directly by the first sub-expression |
| Script.PlotLineSplits | waveform.go:131 | the plot line starts with "plot "; the rest splits on commas back into the sub-expressions in order |
| Script.PlotLineFree | waveform.go:121-131 | the plot line contains no ';' when the file name and names contain none |
| Script.MultiTrackScript | waveform.go:114-132 | the directive list as written: five directives, the output directive names imgfile, and the plot line is last |
| Script.SingleTrackScript | waveform.go:58-64 | the directive list as written: five directives, the plot directive third before both axis labels, and a y label that does not end in a closing quote |
| Script.GnuplotArgs | waveform.go:72 | `strings.Join(script, ";")`: the first directive leads the argument and the last ends it |
| Script.MultiTrackArgsSplit | waveform.go:114-132 | the argument splits on ';' back into the five directives: terminal, output, x label, y label, then the plot line |
| Script.SingleTrackArgsSplit | waveform.go:58-64 | the argument of plotAudio splits on ';' back into its five directives, in the source's order |
| Waveform.FitsMinLength | waveform.go:103-109 | after alignment, every track is at least minSize long, so every `audio[i]` read is in bounds |
| Waveform.PlotAudios | waveform.go:103-134 | the scratch-file text equals the table for the first MinLength(audios) indices; the gnuplot argument is the directive list with the plot line last, joined by ';' |
| Waveform.LegendMatchesColumn | waveform.go:105-131 | gnuplot sees the five directives with the plot line last; sub-expression j is titled names[j] and plots column j + 2; column j + 2 of every table line i parses back to audios[j][i] |

## Left out

- File opening, `ioutil.ReadAll`, temporary-file creation and cleanup (waveform.go:26-36, 47-49, 97-99) are I/O. The model takes the data bytes as input, treats the scratch file as the text written to it, and takes the file name as the parameter `dataPath`.
- `parseHeader` and the `wavHeader` type are defined in a file that is not part of this model. The unused `wavHeaderSize` constant (waveform.go:23) has no effect.
- The data chunk's declared size never bounds the decode (waveform.go:22-23, 35-41). Every byte `ioutil.ReadAll` returns after the header is decoded, so a chunk that follows the data chunk (a trailing `LIST` chunk, say) also becomes samples. The model's input is exactly those bytes.
- Running gnuplot through `exec.Command`, its stdio wiring, and `abortonerr`/`os.Exit` (waveform.go:14-19, 73-77) are process control. The model stops at the argument string handed to gnuplot.
- The `float32` timestamp and its `%f` text (waveform.go:51, 54, 101, 106-107) are floating point. The model uses an arbitrary `stamp: nat -> string`. The read-back lemmas need only that a stamp has no blank or newline. `Table.RowNoEmptyField` also needs a non-empty stamp, which `%f` always prints.
- The single-track table rows (waveform.go:53-56) are left out. Their format string has three verbs but only two arguments, so Go emits a `%!d(MISSING)` marker. The single-track directive list is modelled as written: the plot before the labels and the y label without its closing quote.
- `filepath.ToSlash` (waveform.go:125) is a library call. In `plotAudios`, `dataPath` stands for the already converted name. `plotAudio` (waveform.go:61) uses `f.Name()` unconverted, so its script takes that name as `tmpName`.
- `main` (waveform.go:139-186) is left out: flag parsing, comma-splitting `-audios`, `filepath.Base`, and the rule that the last loaded header's sample rate wins.
- The scratch file is written only by appending, so it is modelled as one immutable string that the loops extend. The inner loop of the row loop is a method of its own.
- Waveform.LegendMatchesColumn: it assumes as many names as tracks. The Go code does not require this: with fewer names, some tracks get no plot; with more, gnuplot is asked for columns that do not exist. `PlotAudios` itself does not require equal lengths.
- The readers `Split` and `ParseInt` split on one character and parse plain decimals. gnuplot's own whitespace and number parsing is not part of this model.
