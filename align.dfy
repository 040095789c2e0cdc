/** Min-length alignment of plotAudios: the tracks are cut to the length of
    the shortest one, found by a running minimum over the track list. */
module Align {
  import opened Pcm

  /** min(a, b): the smaller of the two. */
  function Min(a: int, b: int): (m: int)
    ensures m <= a && m <= b
    ensures m == a || m == b
  {
    if a < b then a else b
  }

  /** The shortest track length, folded from the first track onwards as
      minAudioSize does. */
  function MinLength(audios: seq<seq<Int16>>): (m: nat)
    requires |audios| > 0
    ensures forall j :: 0 <= j < |audios| ==> m <= |audios[j]|
    ensures exists j :: 0 <= j < |audios| && m == |audios[j]|
  {
    if |audios| == 1 then |audios[0]|
    else Min(MinLength(audios[..|audios| - 1]), |audios[|audios| - 1]|)
  }

  /** minAudioSize: starts from the first track's length and lowers it to
      each further track's length where that is smaller. */
  method MinAudioSize(audios: seq<seq<Int16>>) returns (m: int)
    requires |audios| > 0
    ensures forall j :: 0 <= j < |audios| ==> m <= |audios[j]|
    ensures exists j :: 0 <= j < |audios| && m == |audios[j]|
    ensures m == MinLength(audios)
  {
    m := |audios[0]|;
    var rest := audios[1..];
    for k := 0 to |rest|
      invariant m == MinLength(audios[..k + 1])
    {
      assert audios[..k + 2][..k + 1] == audios[..k + 1];
      m := Min(m, |rest[k]|);
    }
    assert audios[..|rest| + 1] == audios;
  }

  /** Two tracks of 100 and 137 samples align to 100 samples. */
  lemma AlignExample(a: seq<Int16>, b: seq<Int16>)
    requires |a| == 100 && |b| == 137
    ensures MinLength([a, b]) == 100
  {
    assert [a, b][..1] == [a];
  }
}
