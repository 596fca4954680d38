/** The rotating file sink: messages go to file 0 until it would grow past the limit; then every file moves
    one index up and the last one is lost. File operations are taken to succeed. */
module RotatingSink {
  import opened Decimal

  type Files = map<string, string>

  /** What the names are made of, and the limits. */
  datatype Config = Config(base: string, extension: string, maxSize: nat, maxFiles: nat)

  function CalcFilename(c: Config, index: nat): string {
    if index != 0 then c.base + "." + Numeral(index) + "." + c.extension else c.base + "." + c.extension
  }

  lemma Middle(b: string, m: string, e: string)
    ensures var s := b + m + e; |s| == |b| + |m| + |e| && s[|b|..|s| - |e|] == m
  {
  }

  /** Different indices have different names, whatever the base name and the extension are. */
  lemma NamesDiffer(c: Config, i: nat, j: nat)
    requires i != j
    ensures CalcFilename(c, i) != CalcFilename(c, j)
  {
    hide Numeral;
    var b, e := c.base + ".", "." + c.extension;
    assert |CalcFilename(c, 0)| < |b| + 1 + |e|;
    assert forall k: nat :: k != 0 ==> CalcFilename(c, k) == b + Numeral(k) + e;
    if i != 0 && j != 0 && CalcFilename(c, i) == CalcFilename(c, j) {
      Middle(b, Numeral(i), e);
      Middle(b, Numeral(j), e);
      NumeralInjective(i, j);
    }
  }

  /** What a name looks like, read from its two ends: the base name and a dot in front, the extension behind,
      and in between for every index but 0 its decimal digits, without leading zeros, and a dot. */
  lemma NameTellsIndex(c: Config, index: nat)
    ensures var (name, front, back) := (CalcFilename(c, index), |c.base| + 1, |c.extension|);
      && c.base + "." <= name && front + back <= |name| && name[|name| - back..] == c.extension
      && (index == 0 <==> |name| == front + back)
      && (index != 0 ==>
            && front + 1 + back < |name| && name[|name| - back - 1] == '.'
            && var digits := name[front..|name| - back - 1];
            && (forall i :: 0 <= i < |digits| ==> IsDigit(digits[i])) && digits[0] != '0' && Value(digits) == index)
  {
    hide Numeral, Value;
    var name := CalcFilename(c, index);
    if index != 0 {
      var b, e := c.base + ".", "." + c.extension;
      assert name == b + Numeral(index) + e;
      Middle(b, Numeral(index), e);
      NoLeadingZero(index);
      ValueOfNumeral(index);
      assert name[|b| + |Numeral(index)|] == e[0];
    }
  }

  /** A missing file counts as empty. */
  function Content(c: Config, fs: Files, index: nat): string {
    var name := CalcFilename(c, index);
    if name in fs then fs[name] else ""
  }

  /** The files from the given index down to 0, oldest first. */
  function History(c: Config, fs: Files, index: nat): string {
    if index == 0 then Content(c, fs, 0) else Content(c, fs, index) + History(c, fs, index - 1)
  }

  // Rotation

  /** File i - 1 takes the place of file i. */
  function MoveUp(c: Config, fs: Files, i: nat): Files
    requires i > 0
  {
    var src, target := CalcFilename(c, i - 1), CalcFilename(c, i);
    var removed := fs - {target};
    if src in removed then (removed - {src})[target := removed[src]] else removed
  }

  function ShiftUp(c: Config, fs: Files, i: nat): Files
    decreases i
  {
    if i == 0 then fs else ShiftUp(c, MoveUp(c, fs, i), i - 1)
  }

  function Rotated(c: Config, fs: Files): Files {
    ShiftUp(c, fs, c.maxFiles)[CalcFilename(c, 0) := ""]
  }

  lemma MoveUpContent(c: Config, fs: Files, i: nat, k: nat)
    requires i > 0
    ensures Content(c, MoveUp(c, fs, i), k) == if k == i then Content(c, fs, i - 1) else if k == i - 1
      then "" else Content(c, fs, k)
  {
    NamesDiffer(c, i - 1, i);
    if k != i { NamesDiffer(c, k, i); }
    if k != i - 1 { NamesDiffer(c, k, i - 1); }
  }

  lemma {:induction false} ShiftUpContent(c: Config, fs: Files, i: nat, k: nat)
    ensures Content(c, ShiftUp(c, fs, i), k) == if i > 0 && k == 0 then "" else if 0 < k <= i
      then Content(c, fs, k - 1) else Content(c, fs, k)
    decreases i
  {
    hide CalcFilename, Content, MoveUp;
    if i == 0 {
    } else {
      ShiftUpContent(c, MoveUp(c, fs, i), i - 1, k);
      MoveUpContent(c, fs, i, k);
      if k > 0 { MoveUpContent(c, fs, i, k - 1); }
    }
  }

  lemma RotatedContent(c: Config, fs: Files, k: nat)
    ensures Content(c, Rotated(c, fs), k) == if k == 0 then "" else if k <= c.maxFiles
      then Content(c, fs, k - 1) else Content(c, fs, k)
  {
    ShiftUpContent(c, fs, c.maxFiles, k);
    if k != 0 { NamesDiffer(c, k, 0); }
  }

  lemma {:induction false} RotatedHistory(c: Config, fs: Files, k: nat)
    requires k <= c.maxFiles
    ensures History(c, Rotated(c, fs), k) == if k == 0 then "" else History(c, fs, k - 1)
  {
    hide CalcFilename, Content, Rotated;
    RotatedContent(c, fs, k);
    if k == 0 {
    } else {
      RotatedHistory(c, fs, k - 1);
      if k == 1 { assert Content(c, fs, 0) + "" == Content(c, fs, 0); }
    }
  }

  /** Nothing is lost but the oldest file, and no other file is touched. */
  lemma RotationDropsOldest(c: Config, fs: Files)
    ensures Content(c, Rotated(c, fs), 0) == ""
    ensures History(c, fs, c.maxFiles) == Content(c, fs, c.maxFiles) + History(c, Rotated(c, fs), c.maxFiles)
    ensures forall k: nat :: k > c.maxFiles ==> Content(c, Rotated(c, fs), k) == Content(c, fs, k)
  {
    hide CalcFilename, ShiftUp;
    RotatedHistory(c, fs, c.maxFiles);
    forall k: nat | k > c.maxFiles ensures Content(c, Rotated(c, fs), k) == Content(c, fs, k) {
      RotatedContent(c, fs, k);
    }
    RotatedContent(c, fs, 0);
    if c.maxFiles == 0 {
      assert History(c, fs, 0) == Content(c, fs, 0) + "";
    }
  }

  /** Files that have none of the sink's names stay as they are. */
  lemma {:induction false} OthersStay(c: Config, fs: Files, i: nat, name: string)
    requires forall k: nat :: name != CalcFilename(c, k)
    ensures name in ShiftUp(c, fs, i) <==> name in fs
    ensures name in fs ==> ShiftUp(c, fs, i)[name] == fs[name]
    decreases i
  {
    if i == 0 {
    } else {
      OthersStay(c, MoveUp(c, fs, i), i - 1, name);
    }
  }

  // Writing

  datatype State = State(fs: Files, currentSize: nat)

  function Append(c: Config, fs: Files, text: string): Files {
    fs[CalcFilename(c, 0) := Content(c, fs, 0) + text]
  }

  predicate Rotates(c: Config, s: State, msg: string) {
    s.currentSize + |msg| > c.maxSize
  }

  function SinkIt(c: Config, s: State, msg: string): State {
    if Rotates(c, s, msg) then State(Append(c, Rotated(c, s.fs), msg), |msg|)
    else State(Append(c, s.fs, msg), s.currentSize + |msg|)
  }

  function SinkAll(c: Config, s: State, msgs: seq<string>): State
    decreases |msgs|
  {
    if msgs == [] then s else SinkIt(c, SinkAll(c, s, msgs[..|msgs| - 1]), msgs[|msgs| - 1])
  }

  function Flatten(msgs: seq<string>): string {
    if msgs == [] then "" else Flatten(msgs[..|msgs| - 1]) + msgs[|msgs| - 1]
  }

  predicate Valid(c: Config, s: State) {
    s.currentSize == |Content(c, s.fs, 0)|
  }

  lemma {:induction false} AppendHistory(c: Config, fs: Files, text: string, k: nat)
    ensures History(c, Append(c, fs, text), k) == History(c, fs, k) + text
    ensures Content(c, Append(c, fs, text), 0) == Content(c, fs, 0) + text
    ensures k > 0 ==> Content(c, Append(c, fs, text), k) == Content(c, fs, k)
  {
    if k == 0 {
    } else {
      hide CalcFilename;
      NamesDiffer(c, k, 0);
      AppendHistory(c, fs, text, k - 1);
      assert Content(c, fs, k) + (History(c, fs, k - 1) + text) == History(c, fs, k) + text;
    }
  }

  /** What one message drives out: the oldest file if there is a rotation. */
  function DroppedBy(c: Config, s: State, msg: string): string {
    if Rotates(c, s, msg) then Content(c, s.fs, c.maxFiles) else ""
  }

  /** The oldest files that a run of writes drives out, one for every rotation. */
  function Dropped(c: Config, s: State, msgs: seq<string>): seq<string>
    decreases |msgs|
  {
    if msgs == [] then [] else
      var (front, last) := (msgs[..|msgs| - 1], msgs[|msgs| - 1]);
      var mid := SinkAll(c, s, front);
      Dropped(c, s, front) + if Rotates(c, mid, last) then [Content(c, mid.fs, c.maxFiles)] else []
  }

  /** One message: the text goes to the end, and nothing but the oldest file is lost in front, by a rotation;
      the recorded size is the size of file 0, which is past the limit only if it holds nothing but this
      message. */
  lemma SinkItKeeps(c: Config, s: State, msg: string)
    requires Valid(c, s)
    ensures var t := SinkIt(c, s, msg);
      && Valid(c, t)
      && History(c, s.fs, c.maxFiles) + msg == DroppedBy(c, s, msg) + History(c, t.fs, c.maxFiles)
      && (t.currentSize > c.maxSize ==> Content(c, t.fs, 0) == msg)
  {
    hide CalcFilename, Content, History, Append, Rotated;
    AppendHistory(c, s.fs, msg, c.maxFiles);
    AppendHistory(c, Rotated(c, s.fs), msg, c.maxFiles);
    RotationDropsOldest(c, s.fs);
    assert "" + msg == msg;
  }

  lemma AppendToAll(had: string, text: string, msg: string, gone: string, kept: string, more: string, now: string)
    requires had + text == gone + kept && kept + msg == more + now
    ensures had + (text + msg) == (gone + more) + now
  {
    assert had + (text + msg) == (had + text) + msg;
    assert (gone + kept) + msg == gone + (kept + msg);
    assert gone + (more + now) == (gone + more) + now;
  }

  lemma FlattenOneMore(msgs: seq<string>, msg: string)
    ensures Flatten(msgs + [msg]) == Flatten(msgs) + msg
  {
    assert (msgs + [msg])[..|msgs|] == msgs;
  }

  lemma FlattenDropped(c: Config, s: State, msgs: seq<string>)
    requires msgs != []
    ensures Flatten(Dropped(c, s, msgs))
      == Flatten(Dropped(c, s, msgs[..|msgs| - 1])) + DroppedBy(c, SinkAll(c, s, msgs[..|msgs| - 1]), msgs[|msgs| - 1])
  {
    hide SinkAll, Content;
    var before, mid := Dropped(c, s, msgs[..|msgs| - 1]), SinkAll(c, s, msgs[..|msgs| - 1]);
    if Rotates(c, mid, msgs[|msgs| - 1]) {
      FlattenOneMore(before, Content(c, mid.fs, c.maxFiles));
    } else {
      assert before + [] == before;
    }
  }

  /** Every run of writes: what was there and all that was written is what was driven out, whole oldest files
      one after the other, and then the files from the oldest to file 0. */
  lemma {:induction false} FilesHoldSuffix(c: Config, s: State, msgs: seq<string>)
    requires Valid(c, s)
    ensures var t := SinkAll(c, s, msgs);
      && Valid(c, t)
      && History(c, s.fs, c.maxFiles) + Flatten(msgs) == Flatten(Dropped(c, s, msgs)) + History(c, t.fs, c.maxFiles)
      && (msgs != [] && t.currentSize > c.maxSize ==> Content(c, t.fs, 0) == msgs[|msgs| - 1])
    decreases |msgs|
  {
    hide Content, History, SinkIt, Valid, Rotates;
    var had := History(c, s.fs, c.maxFiles);
    if msgs == [] {
      assert had + "" == had && "" + had == had;
    } else {
      var front, last := msgs[..|msgs| - 1], msgs[|msgs| - 1];
      var mid := SinkAll(c, s, front);
      FilesHoldSuffix(c, s, front);
      SinkItKeeps(c, mid, last);
      FlattenDropped(c, s, msgs);
      AppendToAll(had, Flatten(front), last, Flatten(Dropped(c, s, front)), History(c, mid.fs, c.maxFiles),
                  DroppedBy(c, mid, last), History(c, SinkIt(c, mid, last).fs, c.maxFiles));
    }
  }

  /** As long as everything fits into file 0, nothing is lost. */
  lemma {:induction false} NothingLostWithinLimit(c: Config, s: State, msgs: seq<string>)
    requires Valid(c, s) && s.currentSize + |Flatten(msgs)| <= c.maxSize
    ensures Dropped(c, s, msgs) == [] && SinkAll(c, s, msgs).currentSize == s.currentSize + |Flatten(msgs)|
    decreases |msgs|
  {
    if msgs == [] {
    } else {
      NothingLostWithinLimit(c, s, msgs[..|msgs| - 1]);
    }
  }

  /** The sink as the object that moves the files. */
  class RotatingFileSink {
    const config: Config
    var fs: Files
    var currentSize: nat

    function GetState(): State
      reads this
    {
      State(fs, currentSize)
    }

    /** Opens file 0 for appending, which creates it if need be. */
    constructor (config: Config, fs: Files)
      ensures this.config == config && Valid(config, GetState())
      ensures this.fs == Append(config, fs, "")
    {
      this.config := config;
      this.fs := Append(config, fs, "");
      this.currentSize := |Content(config, fs, 0)|;
      new;
      assert Content(config, fs, 0) + "" == Content(config, fs, 0);
    }

    method Remove(name: string)
      requires name in fs
      modifies this`fs
      ensures fs == old(fs) - {name}
    {
      fs := fs - {name};
    }

    method Rename(src: string, target: string)
      requires src in fs && target !in fs
      modifies this`fs
      ensures fs == (old(fs) - {src})[target := old(fs)[src]]
    {
      fs := (fs - {src})[target := fs[src]];
    }

    method Rotate()
      modifies this`fs
      ensures fs == Rotated(config, old(fs))
    {
      for i := config.maxFiles downto 0
        invariant ShiftUp(config, old(fs), config.maxFiles) == ShiftUp(config, fs, i)
      {
        hide CalcFilename;
        var src, target := CalcFilename(config, i), CalcFilename(config, i + 1);
        NamesDiffer(config, i, i + 1);
        ghost var before := fs;
        if target in fs {
          Remove(target);
        }
        assert fs == before - {target};
        if src in fs {
          Rename(src, target);
        }
        assert fs == MoveUp(config, before, i + 1);
      }
      fs := fs[CalcFilename(config, 0) := ""];
    }

    method Log(msg: string)
      requires Valid(config, GetState())
      modifies this
      ensures GetState() == SinkIt(config, old(GetState()), msg)
      ensures Valid(config, GetState())
    {
      SinkItKeeps(config, GetState(), msg);
      currentSize := currentSize + |msg|;
      if currentSize > config.maxSize {
        Rotate();
        currentSize := |msg|;
      }
      fs := Append(config, fs, msg);
    }
  }
}
