/** plotAudios end to end: the aligned data table it writes to its scratch
    file and the argument it hands to gnuplot, and how the two agree: the
    legend entry of track j plots column j + 2, which holds track j. */
module Waveform {
  import opened Text
  import opened Pcm
  import opened Align
  import opened Table
  import opened Script

  /** The shortest length fits every track. */
  lemma FitsMinLength(audios: seq<seq<Int16>>)
    requires |audios| > 0
    ensures Fits(audios, MinLength(audios))
  {
    FitsIff(audios, MinLength(audios));
  }

  /** plotAudios without its I/O: the text written to the scratch file named
      dataPath, and the single argument passed to gnuplot. */
  method PlotAudios(imgfile: string, audios: seq<seq<Int16>>, names: seq<string>,
                    dataPath: string, stamp: nat -> string)
    returns (table: string, args: string)
    requires |audios| > 0
    ensures Fits(audios, MinLength(audios)) && table == TableText(audios, stamp, MinLength(audios))
    ensures args == GnuplotArgs(MultiTrackScript(imgfile, PlotLine(TrackPlots(dataPath, names))))
  {
    var minSize := MinAudioSize(audios);
    FitsMinLength(audios);
    table := WriteTable(audios, stamp, minSize);
    var script := [
      "set terminal svg",
      "set output '" + imgfile + "'",
      "set xlabel \"time (ms)\"",
      "set ylabel \"sample value (signed int)\""
    ];
    var plots := BuildPlots(dataPath, names);
    var plot := "plot " + Join(plots, ",");
    script := script + [plot];
    assert script == MultiTrackScript(imgfile, PlotLine(TrackPlots(dataPath, names)));
    args := Join(script, ";");
  }

  /** Column col (counted from 1, as gnuplot's `using` does) of a table
      line, if the line has that many fields. */
  function Column(line: string, col: nat): (cell: Option<string>)
    requires col >= 1
    ensures cell.Some? <==> col <= |Split(line, ' ')|
  {
    var fields := Split(line, ' ');
    if col <= |fields| then Some(fields[col - 1]) else None
  }

  /** What gnuplot is given agrees with the table: its argument splits into
      the five directives with the plot line last, the plot line's
      sub-expression j is titled names[j] and plots column j + 2, and column
      j + 2 of every table line i reads back as sample i of track j.  Only
      the first MinLength(audios) samples of each track are tabulated. */
  lemma LegendMatchesColumn(imgfile: string, audios: seq<seq<Int16>>, names: seq<string>,
                            dataPath: string, stamp: nat -> string, i: nat, j: nat)
    requires |audios| > 0 && |names| == |audios|
    requires ';' !in imgfile && ';' !in dataPath && ',' !in dataPath
    requires forall k :: 0 <= k < |names| ==> ';' !in names[k] && ',' !in names[k]
    requires forall k :: 0 <= k < MinLength(audios) ==> Plain(stamp(k))
    requires i < MinLength(audios) && j < |audios|
    ensures Fits(audios, MinLength(audios))
    ensures var plotLine := PlotLine(TrackPlots(dataPath, names));
      var directives := Split(GnuplotArgs(MultiTrackScript(imgfile, plotLine)), ';');
      |directives| == 5 && directives[4] == plotLine &&
      var plots := Split(plotLine[5..], ',');
      |plots| == |names| && plots[j] == PlotSubExpression(dataPath, j + 2, names[j])
    ensures var lines := Split(TableText(audios, stamp, MinLength(audios)), '\n');
      |lines| == MinLength(audios) + 1 &&
      var cell := Column(lines[i], j + 2);
      cell.Some? && i < |audios[j]| && ParseInt(cell.value) == Some(audios[j][i])
  {
    FitsMinLength(audios);
    var plotLine := PlotLine(TrackPlots(dataPath, names));
    PlotLineFree(dataPath, names);
    MultiTrackArgsSplit(imgfile, plotLine);
    PlotLineSplits(dataPath, names);
    TableReadsBack(audios, stamp, MinLength(audios), i, j);
  }
}
