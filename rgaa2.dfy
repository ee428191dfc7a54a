/** Criterion 2.1: every frame has a title attribute. */
module Rgaa2 {
  import opened Types
  import opened Seqs

  /** A frame or iframe: whether it carries a `title` attribute at all (an empty one counts), and its markup. */
  datatype Frame = Frame(hasTitleAttribute: bool, outerHTML: string)

  const FrameMessage := "frame & iframe should have an attribute title"

  function Check(f: Frame): seq<Violation> {
    if !f.hasTitleAttribute then [ViolationFor(f)] else []
  }

  /** 2.1.1 over the frames, in order. */
  method RGAA211(frames: seq<Frame>) returns (wrongFrames: seq<Violation>)
    ensures wrongFrames == FlatMap(frames, Check)
  {
    wrongFrames := [];
    var i := 0;
    while i < |frames|
      invariant 0 <= i <= |frames|
      invariant wrongFrames == FlatMap(frames[..i], Check)
    {
      var frame := frames[i];
      FlatMapSnoc(frames[..i], frame, Check);
      PrefixSnoc(frames, i);
      if !frame.hasTitleAttribute {
        wrongFrames := wrongFrames + [ViolationFor(frame)];
      }
      i := i + 1;
    }
    assert frames[..i] == frames;
  }

  function ViolationFor(f: Frame): Violation {
    Violation(f.outerHTML, "RGAA - 2.1.1", RuleLink("2.1.1"), FrameMessage)
  }

  /**
   * The report is the untitled frames, in input order, each turned into the fixed
   * 2.1.1 violation carrying its markup; so it is never longer than the input and
   * every violation in it is a 2.1.1 one.
   */
  lemma ReportIsUntitledFrames(frames: seq<Frame>)
    ensures var r := FlatMap(frames, Check);
      && r == Map(Filter(frames, (f: Frame) => !f.hasTitleAttribute), ViolationFor)
      && |r| <= |frames|
      && forall k :: 0 <= k < |r| ==> r[k].rule == "RGAA - 2.1.1" && r[k].message == FrameMessage
  {
    var untitled := Filter(frames, (f: Frame) => !f.hasTitleAttribute);
    FlatMapSelect(frames, Check, (f: Frame) => !f.hasTitleAttribute, ViolationFor);
    forall k | 0 <= k < |untitled| ensures Map(untitled, ViolationFor)[k] == ViolationFor(untitled[k]) {
      MapIndex(untitled, ViolationFor, k);
    }
  }

  /** A frame with a title attribute, even an empty one, is never reported. */
  lemma TitledFrameNeverFlagged(f: Frame)
    requires f.hasTitleAttribute
    ensures Check(f) == []
  {
  }
}
