/** The gnuplot scripts of plotAudio and plotAudios and the join that turns
    a script into the single argument handed to gnuplot.  The scratch data
    file's name is a parameter, `dataPath`. */
module Script {
  import opened Text

  /** The sub-expression plotting one track: the data file, every 30th
      point, column 1 against `column`, the track name as legend title. */
  function PlotSubExpression(dataPath: string, column: nat, title: string): (e: string)
    ensures "\"" + dataPath + "\" every 30 using 1:" + FormatInt(column) <= e
    ensures var clause := " title \"" + title + "\" with lines";
      |clause| <= |e| && e[|e| - |clause|..] == clause
  {
    "\"" + dataPath + "\" every 30 using 1:" + FormatInt(column) + " title \"" + title + "\" with lines"
  }

  /** The sub-expressions for the track names in order: the one for names[i]
      reads column i + 2 and is titled names[i]. */
  function TrackPlots(dataPath: string, names: seq<string>): (plots: seq<string>)
    ensures |plots| == |names|
    ensures forall i :: 0 <= i < |names| ==> plots[i] == PlotSubExpression(dataPath, i + 2, names[i])
  {
    if |names| == 0 then []
    else
      TrackPlots(dataPath, names[..|names| - 1])
        + [PlotSubExpression(dataPath, |names| + 1, names[|names| - 1])]
  }

  /** The loop of plotAudios that appends one sub-expression per track
      name. */
  method BuildPlots(dataPath: string, names: seq<string>) returns (plots: seq<string>)
    ensures |plots| == |names|
    ensures forall i :: 0 <= i < |names| ==> plots[i] == PlotSubExpression(dataPath, i + 2, names[i])
    ensures plots == TrackPlots(dataPath, names)
  {
    plots := [];
    for i := 0 to |names|
      invariant |plots| == i
      invariant forall k :: 0 <= k < i ==> plots[k] == PlotSubExpression(dataPath, k + 2, names[k])
    {
      plots := plots + [PlotSubExpression(dataPath, i + 2, names[i])];
    }
  }

  /** The plot directive: "plot " and the sub-expressions joined by commas,
      the first one right after "plot ". */
  function PlotLine(plots: seq<string>): (line: string)
    ensures "plot " <= line
    ensures |plots| > 0 ==> "plot " + plots[0] <= line
  {
    "plot " + Join(plots, ",")
  }

  /** The script of plotAudios: output format, output file, the two axis
      labels, and the plot directive last. */
  function MultiTrackScript(imgfile: string, plotLine: string): (script: seq<string>)
    ensures |script| == 5 && script[|script| - 1] == plotLine
    ensures script[1] == "set output '" + imgfile + "'"
  {
    [ "set terminal svg",
      "set output '" + imgfile + "'",
      "set xlabel \"time (ms)\"",
      "set ylabel \"sample value (signed int)\"",
      plotLine ]
  }

  /** The script of plotAudio as written: the plot directive comes before
      the axis labels, and the y label lacks its closing quote.  tmpName is
      the scratch file's name as the OS reports it, with no slash
      conversion. */
  function SingleTrackScript(imgfile: string, tmpName: string): (script: seq<string>)
    ensures |script| == 5 && "plot " <= script[2]
    ensures "set xlabel" <= script[3] && "set ylabel" <= script[4]
    ensures |script[4]| > 0 && script[4][|script[4]| - 1] != '"'
  {
    [ "set terminal svg",
      "set output '" + imgfile + "'",
      "plot '" + tmpName + "' every 35 with lines",
      "set xlabel \"time (ms)\"",
      "set ylabel \"sample value (signed int)" ]
  }

  /** The single argument passed to gnuplot -e: the directives joined by
      semicolons. */
  function GnuplotArgs(script: seq<string>): (args: string)
    ensures |script| > 0 ==> script[0] <= args
    ensures |script| > 0 ==> var last := script[|script| - 1];
      |last| <= |args| && args[|args| - |last|..] == last
  {
    Join(script, ";")
  }

  /** No separator of the plot line or the script occurs in a sub-expression
      whose file name and title are free of it. */
  lemma SubExpressionFree(dataPath: string, column: nat, title: string, c: char)
    requires c == ',' || c == ';'
    requires c !in dataPath && c !in title
    ensures c !in PlotSubExpression(dataPath, column, title)
  {
    FormatIntPlain(column);
  }

  /** Splitting the plot line after "plot " on commas gives back every
      track's sub-expression, in track order. */
  lemma PlotLineSplits(dataPath: string, names: seq<string>)
    requires |names| > 0
    requires ',' !in dataPath && forall k :: 0 <= k < |names| ==> ',' !in names[k]
    ensures var line := PlotLine(TrackPlots(dataPath, names));
      line[..5] == "plot " && Split(line[5..], ',') == TrackPlots(dataPath, names)
  {
    var plots := TrackPlots(dataPath, names);
    forall k | 0 <= k < |plots| ensures ',' !in plots[k] {
      SubExpressionFree(dataPath, k + 2, names[k], ',');
    }
    SplitJoin(plots, ',');
    var line := PlotLine(plots);
    assert line[5..] == Join(plots, ",");
  }

  /** gnuplot, splitting its argument on semicolons, sees the directives of
      plotAudios in order. */
  lemma MultiTrackArgsSplit(imgfile: string, plotLine: string)
    requires ';' !in imgfile && ';' !in plotLine
    ensures Split(GnuplotArgs(MultiTrackScript(imgfile, plotLine)), ';') == MultiTrackScript(imgfile, plotLine)
  {
    var script := MultiTrackScript(imgfile, plotLine);
    forall k | 0 <= k < |script| ensures ';' !in script[k] {
    }
    SplitJoin(script, ';');
  }

  /** gnuplot, splitting its argument on semicolons, sees the directives of
      plotAudio in order. */
  lemma SingleTrackArgsSplit(imgfile: string, tmpName: string)
    requires ';' !in imgfile && ';' !in tmpName
    ensures Split(GnuplotArgs(SingleTrackScript(imgfile, tmpName)), ';') == SingleTrackScript(imgfile, tmpName)
  {
    var script := SingleTrackScript(imgfile, tmpName);
    forall k | 0 <= k < |script| ensures ';' !in script[k] {
    }
    SplitJoin(script, ';');
  }

  /** A plot line built from names and a file name free of semicolons is
      itself free of them. */
  lemma PlotLineFree(dataPath: string, names: seq<string>)
    requires ';' !in dataPath && forall k :: 0 <= k < |names| ==> ';' !in names[k]
    ensures ';' !in PlotLine(TrackPlots(dataPath, names))
  {
    var plots := TrackPlots(dataPath, names);
    forall k | 0 <= k < |plots| ensures ';' !in plots[k] {
      SubExpressionFree(dataPath, k + 2, names[k], ';');
    }
    JoinFree(plots, ",", ';');
  }
}
