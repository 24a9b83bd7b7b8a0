/** Domain names on the wire (section 4.1.4 of RFC 1035): name_pack writes a
    name as length-prefixed labels, replacing the first suffix already
    written in this message by a two-octet pointer; nameUnpack reads labels
    and follows pointers. */
module Names {
  import opened Wrappers
  import opened Wire
  import opened Cursors

  const LABEL_POINTER: int := 0xC0

  /** isPointer: a length octet with both top bits set starts a pointer. */
  predicate IsPointer(len: byte)
  {
    len >= LABEL_POINTER
  }

  /** packet.js tests (len & 0xC0) == 0xC0, which is the same test. */
  lemma {:induction false} PointerMask(len: byte)
    ensures IsPointer(len) <==> (len as bv8) & 0xC0 == 0xC0
  {
  }

  /** The offset a pointer names: ((len - 0xC0) << 8) + the next octet. */
  function PointerTarget(len: byte, next: byte): int
    requires IsPointer(len)
  {
    (len - LABEL_POINTER) * 0x100 + next
  }

  /** The compression index of one encode call: name suffix -> the offset
      where its labels were first written. */
  type Index = map<string, int>

  /** index[str] is truthy: present and not offset 0. */
  predicate Hit(index: Index, s: string)
  {
    s in index && index[s] != 0
  }

  /** str.indexOf('.') */
  function DotIndex(s: string): (d: int)
    ensures -1 <= d < |s|
  {
    if s == "" then -1
    else if s[0] == '.' then 0
    else
      var d := DotIndex(s[1..]);
      if d < 0 then -1 else d + 1
  }

  /** The first label of s, and what follows the first dot (None without a dot). */
  function SplitLabel(s: string): (r: (string, Option<string>))
    ensures r.1.None? ==> r.0 == s
  {
    var d := DotIndex(s);
    if d >= 0 then (s[..d], Some(s[d + 1..])) else (s, None)
  }

  /** DotIndex finds the first dot, and -1 when there is none. */
  lemma {:induction false} DotIndexFirst(s: string)
    ensures var d := DotIndex(s);
      (d >= 0 ==> s[d] == '.') &&
      forall i :: 0 <= i < |s| && (d < 0 || i < d) ==> s[i] != '.'
  {
    if s != "" && s[0] != '.' {
      DotIndexFirst(s[1..]);
      assert forall i :: 0 < i < |s| ==> s[i] == s[1..][i - 1];
    }
  }

  /** A name with a dot is its first label, the dot and what follows. */
  lemma {:induction false} SplitJoin(s: string)
    ensures SplitLabel(s).1.Some? ==> s == SplitLabel(s).0 + "." + SplitLabel(s).1.value
  {
    DotIndexFirst(s);
    var d := DotIndex(s);
    if d >= 0 {
      assert s == s[..d] + [s[d]] + s[d + 1..];
    }
  }

  /** The next value of `str` in name_pack's loop; "" stands for both an
      empty remainder and `undefined`, which the loop treats alike. */
  function Rest(s: string): (r: string)
    ensures s != "" ==> |r| < |s|
  {
    SplitLabel(s).1.GetOr("")
  }

  /** A name the decoder reads back as written: non-empty labels below the
      pointer range, 'ascii' characters, no trailing dot. */
  predicate WellFormedName(s: string)
    decreases |s|
  {
    s != "" &&
    var (part, rest) := SplitLabel(s);
    0 < |part| < LABEL_POINTER && IsAscii(part) &&
    (rest.Some? ==> WellFormedName(rest.value))
  }

  /** A name that reads back as written: the root name, or a well formed
      one. */
  predicate ReadableName(s: string)
  {
    s == "" || WellFormedName(s)
  }

  /** One pass of name_pack's loop: the value of `str` it looks up (and
      records when the lookup misses) and the label it then writes. */
  datatype Step = Step(suffix: string, first: string)

  /** The passes name_pack's loop makes over s when no lookup hits. */
  function Steps(s: string): seq<Step>
    decreases |s|
  {
    if s == "" then [] else [Step(s, SplitLabel(s).0)] + Steps(Rest(s))
  }

  /** Each pass looks up a shorter key than every pass before it. */
  ghost predicate Shrinking(steps: seq<Step>)
  {
    forall i, j :: 0 <= i < j < |steps| ==> |steps[j].suffix| < |steps[i].suffix|
  }

  lemma {:induction false} StepsShrink(s: string)
    ensures Shrinking(Steps(s))
    ensures forall j :: 0 <= j < |Steps(s)| ==> |Steps(s)[j].suffix| <= |s|
    decreases |s|
  {
    if s != "" {
      var tail := Steps(Rest(s));
      StepsShrink(Rest(s));
      assert Steps(s) == [Step(s, SplitLabel(s).0)] + tail;
      forall j | 1 <= j < |Steps(s)|
        ensures Steps(s)[j] == tail[j - 1]
      {
      }
    }
  }

  /** name_pack(str, buff, index) over the passes it makes, for a cursor at
      offset at of a buffer of capacity cap: the octets written, the error
      that stopped it, and the index it leaves. */
  function PackSteps(at: int, cap: int, index: Index, steps: seq<Step>): Emit<Index>
    decreases |steps|
  {
    if steps == [] then PutU8(at, cap, index, 0)
    else
      var key := steps[0].suffix;
      if Hit(index, key) then PutU16(at, cap, index, LABEL_POINTER * 0x100 + index[key])
      else
        var index' := index[key := at];
        var w := StringStatus(at, cap, steps[0].first);
        if w != Going then Emit(w, [], index')
        else Cat(StringBytes(steps[0].first),
                 PackSteps(at + 1 + |steps[0].first|, cap, index', steps[1..]))
  }

  /** name_pack(str, buff, index) */
  function PackName(at: int, cap: int, index: Index, s: string): Emit<Index>
  {
    PackSteps(at, cap, index, Steps(s))
  }

  /** The first pass over a non-empty name, and the passes after it. */
  lemma {:induction false} StepsHead(s: string)
    requires s != ""
    ensures Steps(s) != [] && Steps(s)[0] == Step(s, SplitLabel(s).0)
    ensures Steps(s)[1..] == Steps(Rest(s))
  {
    assert Steps(s) == [Step(s, SplitLabel(s).0)] + Steps(Rest(s));
  }

  /** A pass whose lookup misses and whose label fits writes the label and
      goes on with the key recorded. */
  lemma {:induction false} PackStepsLabel(at: int, cap: int, index: Index, steps: seq<Step>)
    requires steps != [] && !Hit(index, steps[0].suffix)
    requires StringStatus(at, cap, steps[0].first) == Going
    ensures PackSteps(at, cap, index, steps) ==
      Cat(StringBytes(steps[0].first),
          PackSteps(at + 1 + |steps[0].first|, cap, index[steps[0].suffix := at], steps[1..]))
  {
  }

  /** PackName one pass at a time, as name_pack's loop runs: a lookup that
      misses records the key and writes the label when it fits. */
  lemma {:induction false} PackNameStep(at: int, cap: int, index: Index, s: string)
    requires s != "" && !Hit(index, s)
    ensures StringStatus(at, cap, SplitLabel(s).0) != Going ==>
      PackName(at, cap, index, s) ==
        Emit(StringStatus(at, cap, SplitLabel(s).0), [], index[s := at])
    ensures StringStatus(at, cap, SplitLabel(s).0) == Going ==>
      PackName(at, cap, index, s) ==
        Cat(StringBytes(SplitLabel(s).0),
            PackName(at + 1 + |SplitLabel(s).0|, cap, index[s := at], Rest(s)))
  {
    StepsHead(s);
    if StringStatus(at, cap, SplitLabel(s).0) == Going {
      PackStepsLabel(at, cap, index, Steps(s));
    }
  }

  /** The passes that end name_pack: the zero octet, or a pointer. */
  lemma {:induction false} PackNameEnds(at: int, cap: int, index: Index, s: string)
    ensures s == "" ==> PackName(at, cap, index, s) == PutU8(at, cap, index, 0)
    ensures s != "" && Hit(index, s) ==>
      PackName(at, cap, index, s) == PutU16(at, cap, index, LABEL_POINTER * 0x100 + index[s])
  {
    if s != "" {
      StepsHead(s);
    }
  }

  /** labels.join('.') as nameUnpack builds it from `combine` and each part. */
  function Join(a: string, b: string): string
  {
    if a == "" then b else if b == "" then a else a + "." + b
  }

  /** nameUnpack at offset p: the labels read from there on, following at
      most `hops` pointers, and the offset the cursor is left at, just after
      the name's own octets (the zero octet, or the first pointer). This is
      the reading packet.js evidently intends; NameAtAsWritten below is the
      reading it performs. */
  function NameAt(msg: seq<byte>, p: nat, hops: nat): (r: Result<(string, nat), DecodeError>)
    ensures r.Success? ==> p < |msg| && p < r.value.1 <= |msg|
    decreases hops, |msg| - p
  {
    if p >= |msg| then Failure(ReadPastEnd)
    else if msg[p] == 0 then Success(("", p + 1))
    else if IsPointer(msg[p]) then
      if p + 1 >= |msg| then Failure(ReadPastEnd)
      else if hops == 0 then Failure(TooManyHops)
      else if PointerTarget(msg[p], msg[p + 1]) > |msg| then Failure(BadSeek)
      else
        var u := NameAt(msg, PointerTarget(msg[p], msg[p + 1]), hops - 1);
        if u.Failure? then u else Success((u.value.0, p + 2))
    else
      var q := p + 1 + msg[p];
      if q > |msg| then Failure(ReadPastEnd)
      else
        var u := NameAt(msg, q, hops);
        if u.Failure? then u
        else Success((Join(AsciiString(msg[p + 1..q]), u.value.0), u.value.1))
  }

  /** A budget of more hops reads the same. */
  lemma {:induction false} UnpackMoreHops(msg: seq<byte>, p: nat, h: nat, h': nat)
    requires h <= h' && NameAt(msg, p, h).Success?
    ensures NameAt(msg, p, h') == NameAt(msg, p, h)
    decreases h, |msg| - p
  {
    if msg[p] != 0 {
      if IsPointer(msg[p]) {
        UnpackMoreHops(msg, PointerTarget(msg[p], msg[p + 1]), h - 1, h' - 1);
      } else {
        UnpackMoreHops(msg, p + 1 + msg[p], h, h');
      }
    }
  }

  // ---------------------------------------------------------------------
  // The shape of what name_pack writes.

  /** The key of the first pass whose lookup hits. */
  function FirstHit(index: Index, steps: seq<Step>): (r: Option<string>)
    ensures r.Some? ==> Hit(index, r.value)
    decreases |steps|
  {
    if steps == [] then None
    else if Hit(index, steps[0].suffix) then Some(steps[0].suffix)
    else FirstHit(index, steps[1..])
  }

  /** How a written name ends: the zero octet, or a pointer to the offset
      where the suffix `name` was first written. */
  datatype Ending = Zero | Pointer(target: int, name: string)

  /** The octets of an ending; empty when the offset is out of the pointer's
      range, where name_pack fails. */
  function EndBytes(e: Ending): seq<byte>
  {
    match e
    case Zero => [0]
    case Pointer(t, _) =>
      if 0 <= LABEL_POINTER * 0x100 + t < TWO16 then U16(LABEL_POINTER * 0x100 + t) else []
  }

  /** Labels written in full, then an ending. */
  function Layout(labels: seq<string>, e: Ending): seq<byte>
    decreases |labels|
  {
    if labels == [] then EndBytes(e) else StringBytes(labels[0]) + Layout(labels[1..], e)
  }

  /** The labels name_pack writes out: those before the first lookup that hits. */
  function LabelsOf(index: Index, steps: seq<Step>): seq<string>
    decreases |steps|
  {
    if steps == [] || Hit(index, steps[0].suffix) then []
    else [steps[0].first] + LabelsOf(index, steps[1..])
  }

  /** How name_pack ends: a pointer to the first indexed suffix, or the zero
      octet when there is none. */
  function EndingOf(index: Index, steps: seq<Step>): Ending
  {
    match FirstHit(index, steps)
    case None => Zero
    case Some(t) => Pointer(index[t], t)
  }

  /** The keys name_pack records, those before the first lookup that hits. */
  function Fresh(index: Index, steps: seq<Step>): set<string>
    decreases |steps|
  {
    if steps == [] || Hit(index, steps[0].suffix) then {}
    else {steps[0].suffix} + Fresh(index, steps[1..])
  }

  /** Two indexes that answer every lookup of these passes alike. */
  ghost predicate Agree(i1: Index, i2: Index, steps: seq<Step>)
  {
    forall j :: 0 <= j < |steps| ==>
      Hit(i1, steps[j].suffix) == Hit(i2, steps[j].suffix) &&
      (Hit(i1, steps[j].suffix) ==> i1[steps[j].suffix] == i2[steps[j].suffix])
  }

  lemma {:induction false} ShapeAgree(i1: Index, i2: Index, steps: seq<Step>)
    requires Agree(i1, i2, steps)
    ensures FirstHit(i1, steps) == FirstHit(i2, steps)
    ensures LabelsOf(i1, steps) == LabelsOf(i2, steps)
    ensures EndingOf(i1, steps) == EndingOf(i2, steps)
    decreases |steps|
  {
    if steps != [] && !Hit(i1, steps[0].suffix) {
      ShapeAgree(i1, i2, steps[1..]);
    }
  }

  lemma {:induction false} FreshAgree(i1: Index, i2: Index, steps: seq<Step>)
    requires Agree(i1, i2, steps)
    ensures Fresh(i1, steps) == Fresh(i2, steps)
    decreases |steps|
  {
    if steps != [] && !Hit(i1, steps[0].suffix) {
      FreshAgree(i1, i2, steps[1..]);
    }
  }

  /** Recording the first key leaves every later lookup alone. */
  lemma {:induction false} RecordAgrees(index: Index, steps: seq<Step>, at: int)
    requires steps != [] && Shrinking(steps)
    ensures Agree(index[steps[0].suffix := at], index, steps[1..])
  {
  }

  /** What name_pack writes after recording the first key, one pass at a time. */
  lemma {:induction false} RecordStep(index: Index, steps: seq<Step>, at: int)
    requires steps != [] && !Hit(index, steps[0].suffix) && Shrinking(steps)
    ensures var index' := index[steps[0].suffix := at];
      LabelsOf(index, steps) == [steps[0].first] + LabelsOf(index', steps[1..]) &&
      FirstHit(index, steps) == FirstHit(index', steps[1..]) &&
      EndingOf(index, steps) == EndingOf(index', steps[1..])
  {
    RecordAgrees(index, steps, at);
    ShapeAgree(index[steps[0].suffix := at], index, steps[1..]);
  }

  /** The keys name_pack records, one pass at a time. */
  lemma {:induction false} RecordFresh(index: Index, steps: seq<Step>, at: int)
    requires steps != [] && !Hit(index, steps[0].suffix) && Shrinking(steps)
    ensures Fresh(index, steps) == {steps[0].suffix} + Fresh(index[steps[0].suffix := at], steps[1..])
  {
    RecordAgrees(index, steps, at);
    FreshAgree(index[steps[0].suffix := at], index, steps[1..]);
  }

  /** One label in front of a layout. */
  lemma {:induction false} LayoutCons(first: string, labels: seq<string>, e: Ending)
    ensures Layout([first] + labels, e) == StringBytes(first) + Layout(labels, e)
  {
    assert ([first] + labels)[0] == first && ([first] + labels)[1..] == labels;
  }

  lemma {:induction false} PackStepsBytes(at: int, cap: int, index: Index, steps: seq<Step>)
    requires Shrinking(steps) && PackSteps(at, cap, index, steps).status == Going
    ensures PackSteps(at, cap, index, steps).bytes == Layout(LabelsOf(index, steps), EndingOf(index, steps))
    ensures EndBytes(EndingOf(index, steps)) != []
    decreases |steps|
  {
    if steps != [] && !Hit(index, steps[0].suffix) {
      var index' := index[steps[0].suffix := at];
      RecordStep(index, steps, at);
      PackStepsBytes(at + 1 + |steps[0].first|, cap, index', steps[1..]);
      LayoutCons(steps[0].first, LabelsOf(index', steps[1..]), EndingOf(index', steps[1..]));
    }
  }

  lemma {:induction false} PackStepsKeys(at: int, cap: int, index: Index, steps: seq<Step>)
    requires Shrinking(steps) && PackSteps(at, cap, index, steps).status == Going
    ensures PackSteps(at, cap, index, steps).state.Keys == index.Keys + Fresh(index, steps)
    decreases |steps|
  {
    if steps != [] && !Hit(index, steps[0].suffix) {
      RecordFresh(index, steps, at);
      PackStepsKeys(at + 1 + |steps[0].first|, cap, index[steps[0].suffix := at], steps[1..]);
    }
  }

  /** name_pack writes the labels before the first indexed suffix, then a
      pointer 0xC000 + offset to that suffix and nothing more; with no indexed
      suffix it ends with a single zero octet, so the empty name is [0]. The
      index gains exactly the suffixes it wrote out in full. */
  lemma {:induction false} PackNameShape(at: int, cap: int, index: Index, s: string)
    requires PackName(at, cap, index, s).status == Going
    ensures var e := PackName(at, cap, index, s);
      e.bytes == Layout(LabelsOf(index, Steps(s)), EndingOf(index, Steps(s))) &&
      EndBytes(EndingOf(index, Steps(s))) != [] &&
      e.state.Keys == index.Keys + Fresh(index, Steps(s))
  {
    StepsShrink(s);
    PackStepsBytes(at, cap, index, Steps(s));
    PackStepsKeys(at, cap, index, Steps(s));
  }

  // ---------------------------------------------------------------------
  // Reading back what name_pack wrote.

  function KeyOf(steps: seq<Step>): string
  {
    if steps == [] then "" else steps[0].suffix
  }

  /** Passes whose octets decode back to their keys: non-empty 'ascii'
      labels below the pointer range, each key its label joined to the next. */
  ghost predicate Readable(steps: seq<Step>)
    decreases |steps|
  {
    steps == [] ||
    (0 < |steps[0].first| < LABEL_POINTER && IsAscii(steps[0].first) &&
     steps[0].suffix == Join(steps[0].first, KeyOf(steps[1..])) && Readable(steps[1..]))
  }

  lemma {:induction false} StepsReadable(s: string)
    requires WellFormedName(s)
    ensures Readable(Steps(s)) && KeyOf(Steps(s)) == s
    decreases |s|
  {
    SplitJoin(s);
    assert Steps(s)[1..] == Steps(Rest(s));
    var rest := SplitLabel(s).1;
    if rest.Some? {
      StepsReadable(rest.value);
    }
  }

  /** The first pass looks up the whole name. */
  lemma {:induction false} KeyOfSteps(s: string)
    ensures KeyOf(Steps(s)) == s
  {
    if s != "" {
      StepsHead(s);
    }
  }

  lemma {:induction false} ReadableHead(steps: seq<Step>)
    requires steps != [] && Readable(steps)
    ensures var first := steps[0].first;
      0 < |first| < LABEL_POINTER && IsAscii(first) && Readable(steps[1..]) &&
      KeyOf(steps) == Join(first, KeyOf(steps[1..]))
  {
  }

  /** Labels the decoder reads back as written. */
  ghost predicate LabelsReadable(labels: seq<string>)
    decreases |labels|
  {
    labels == [] ||
    (0 < |labels[0]| < LABEL_POINTER && IsAscii(labels[0]) && LabelsReadable(labels[1..]))
  }

  /** The name that labels followed by an ending spell. */
  function Spelled(labels: seq<string>, e: Ending): string
    decreases |labels|
  {
    if labels == [] then (if e.Zero? then "" else e.name)
    else Join(labels[0], Spelled(labels[1..], e))
  }

  /** Readable passes write readable labels spelling the first key. */
  lemma {:induction false} StepsSpelled(index: Index, steps: seq<Step>)
    requires Readable(steps)
    ensures LabelsReadable(LabelsOf(index, steps))
    ensures Spelled(LabelsOf(index, steps), EndingOf(index, steps)) == KeyOf(steps)
    decreases |steps|
  {
    if steps != [] && !Hit(index, steps[0].suffix) {
      ReadableHead(steps);
      StepsSpelled(index, steps[1..]);
      assert LabelsOf(index, steps)[0] == steps[0].first;
      assert LabelsOf(index, steps)[1..] == LabelsOf(index, steps[1..]);
    }
  }

  /** nameUnpack at offset p, allowed as many pointer hops as p, reads t. */
  ghost predicate ReadsAs(msg: seq<byte>, p: int, t: string)
  {
    0 <= p && NameAt(msg, p, p).Success? && NameAt(msg, p, p).value.0 == t
  }

  /** Every indexed suffix sits at a positive offset below at and reads back
      from there as itself. */
  ghost predicate Sound(msg: seq<byte>, index: Index, at: int)
  {
    forall t {:trigger Entry(index, t)} :: Entry(index, t) ==> 0 < index[t] < at && ReadsAs(msg, index[t], t)
  }

  /** t has an entry in the index; Sound is stated over this test alone, so
      that a proof consults it only for the entries it names. */
  predicate Entry(index: Index, t: string)
  {
    t in index
  }

  /** Recording a key that reads back at offset at keeps the index sound. */
  lemma {:induction false} SoundRecord(msg: seq<byte>, index: Index, key: string, at: int, at': int)
    requires Sound(msg, index, at) && 0 < at < at' && ReadsAs(msg, at, key)
    ensures Sound(msg, index[key := at], at')
  {
    var index' := index[key := at];
    forall t | Entry(index', t)
      ensures 0 < index'[t] < at' && ReadsAs(msg, index'[t], t)
    {
      if t != key {
        assert Entry(index, t);
      }
    }
  }

  /** A pointer ending names an earlier offset below h that reads back as
      the suffix it stands for. */
  ghost predicate EndReads(msg: seq<byte>, e: Ending, h: int)
  {
    e.Pointer? ==> 0 < e.target < h && ReadsAs(msg, e.target, e.name)
  }

  lemma {:induction false} SoundEndReads(msg: seq<byte>, index: Index, steps: seq<Step>, at: int, h: int)
    requires Sound(msg, index, at) && at <= h
    ensures EndReads(msg, EndingOf(index, steps), h)
  {
    if FirstHit(index, steps).Some? {
      var t := FirstHit(index, steps).value;
      assert Entry(index, t);
    }
  }

  /** r reads the name s and leaves the cursor at end. */
  predicate Reads(r: Result<(string, nat), DecodeError>, s: string, end: int)
  {
    r.Success? && r.value.0 == s && r.value.1 == end
  }

  /** One label step of nameUnpack: a label spelling first, followed by
      octets that read as name up to pos, reads as first joined to name. */
  lemma {:induction false} UnpackLabelStep(msg: seq<byte>, p: nat, q: nat, h: nat,
                                           first: string, name: string, pos: nat)
    requires 0 < |first| < LABEL_POINTER && q == p + 1 + |first| < |msg|
    requires msg[p] == |first| && AsciiString(msg[p + 1..q]) == first
    requires Reads(NameAt(msg, q, h), name, pos)
    ensures Reads(NameAt(msg, p, h), Join(first, name), pos)
  {
  }

  /** The first octet of a layout: the zero octet or a pointer exactly when
      no label comes first. */
  lemma {:induction false} LayoutFirst(labels: seq<string>, e: Ending)
    requires LabelsReadable(labels) && EndBytes(e) != [] && (e.Pointer? ==> 0 < e.target)
    ensures |Layout(labels, e)| > 0
    ensures var b := Layout(labels, e);
      (b[0] == 0 || IsPointer(b[0])) <==> labels == []
  {
    if labels == [] && e.Pointer? {
      assert (LABEL_POINTER * 0x100 + e.target) / 0x100 == LABEL_POINTER + e.target / 0x100;
    }
  }

  /** Reading back a layout at offset at gives the name it spells, provided
      a pointer ending reads back as its suffix, and leaves the cursor just
      after the layout. */
  lemma {:induction false} UnpackLayout(msg: seq<byte>, at: nat, labels: seq<string>, e: Ending, h: nat)
    requires LabelsReadable(labels) && EndBytes(e) != []
    requires At(msg, at, Layout(labels, e)) && EndReads(msg, e, h)
    ensures Reads(NameAt(msg, at, h), Spelled(labels, e), at + |Layout(labels, e)|)
    decreases |labels|
  {
    var b := Layout(labels, e);
    LayoutFirst(labels, e);
    AtIndex(msg, at, b, 0);
    if labels != [] {
      UnpackLayoutLabel(msg, at, labels, e, h);
    } else if e.Pointer? {
      AtIndex(msg, at, b, 1);
      assert PointerTarget(msg[at], msg[at + 1]) == e.target;
      UnpackMoreHops(msg, e.target, e.target, h - 1);
    }
  }

  /** The label case of UnpackLayout. */
  lemma {:induction false} UnpackLayoutLabel(msg: seq<byte>, at: nat, labels: seq<string>, e: Ending, h: nat)
    requires labels != [] && LabelsReadable(labels) && EndBytes(e) != []
    requires At(msg, at, Layout(labels, e)) && EndReads(msg, e, h)
    ensures Reads(NameAt(msg, at, h), Spelled(labels, e), at + |Layout(labels, e)|)
    decreases |labels|, 0
  {
    var first, tail := labels[0], labels[1..];
    var rest := Layout(tail, e);
    var at' := at + 1 + |first|;
    AtSplit(msg, at, StringBytes(first), rest);
    LabelBytes(msg, at, first);
    UnpackLayout(msg, at', tail, e, h);
    LayoutFirst(tail, e);
    var name := Spelled(tail, e);
    UnpackLabelStep(msg, at, at', h, first, name, at' + |rest|);
    assert |Layout(labels, e)| == 1 + |first| + |rest|;
    assert Spelled(labels, e) == Join(first, name);
  }

  /** A label written at offset at: its length octet, then octets that read
      back as the label. */
  lemma {:induction false} LabelBytes(msg: seq<byte>, at: nat, first: string)
    requires 0 < |first| < LABEL_POINTER && IsAscii(first)
    requires At(msg, at, StringBytes(first))
    ensures at + 1 + |first| <= |msg|
    ensures msg[at] == |first| && AsciiString(msg[at + 1..at + 1 + |first|]) == first
  {
    var lab := StringBytes(first);
    AtSlice(msg, at, lab);
    assert msg[at] == msg[at..at + |lab|][0];
    assert msg[at + 1..at + 1 + |first|] == msg[at..at + |lab|][1..];
    assert lab[1..] == AsciiBytes(first);
    AsciiRoundTrip(first);
  }

  lemma {:induction false} ShrinkingTail(steps: seq<Step>)
    requires steps != [] && Shrinking(steps)
    ensures Shrinking(steps[1..])
  {
    forall i, j | 0 <= i < j < |steps| - 1
      ensures |steps[1..][j].suffix| < |steps[1..][i].suffix|
    {
      assert steps[1..][j] == steps[j + 1] && steps[1..][i] == steps[i + 1];
    }
  }

  /** The label pass of PackSteps: the label, then the rest with the key
      recorded. */
  lemma {:induction false} LabelPass(at: int, cap: int, index: Index, steps: seq<Step>)
    requires steps != [] && !Hit(index, steps[0].suffix)
    requires PackSteps(at, cap, index, steps).status == Going
    ensures var er := PackSteps(at + 1 + |steps[0].first|, cap, index[steps[0].suffix := at], steps[1..]);
      var e := PackSteps(at, cap, index, steps);
      e.bytes == StringBytes(steps[0].first) + er.bytes && er.status == Going && e.state == er.state
  {
    assert StringStatus(at, cap, steps[0].first) == Going;
    PackStepsLabel(at, cap, index, steps);
  }

  /** What name_pack wrote at offset at reads back as its first key. */
  lemma {:induction false} UnpackPacked(msg: seq<byte>, at: nat, cap: int, index: Index, steps: seq<Step>, h: nat)
    requires Readable(steps) && Shrinking(steps)
    requires PackSteps(at, cap, index, steps).status == Going
    requires At(msg, at, PackSteps(at, cap, index, steps).bytes)
    requires EndReads(msg, EndingOf(index, steps), h)
    ensures var e := PackSteps(at, cap, index, steps);
      Reads(NameAt(msg, at, h), KeyOf(steps), at + |e.bytes|)
  {
    var labels, ending := LabelsOf(index, steps), EndingOf(index, steps);
    assert PackSteps(at, cap, index, steps).bytes == Layout(labels, ending) && EndBytes(ending) != [] by {
      PackStepsBytes(at, cap, index, steps);
    }
    assert LabelsReadable(labels) && Spelled(labels, ending) == KeyOf(steps) by {
      StepsSpelled(index, steps);
    }
    UnpackLayout(msg, at, labels, ending, h);
  }

  /** The index name_pack leaves is sound for any message holding what it
      wrote, when the index it started from was. */
  lemma {:induction false} IndexAfterPack(msg: seq<byte>, at: nat, cap: int, index: Index,
                                          steps: seq<Step>)
    requires Readable(steps) && Shrinking(steps)
    requires PackSteps(at, cap, index, steps).status == Going
    requires At(msg, at, PackSteps(at, cap, index, steps).bytes)
    requires 0 < at && Sound(msg, index, at)
    ensures var e := PackSteps(at, cap, index, steps);
      Sound(msg, e.state, at + |e.bytes|)
    decreases |steps|, 1
  {
    if steps != [] && !Hit(index, steps[0].suffix) {
      IndexAfterLabel(msg, at, cap, index, steps);
    } else {
      var e := PackSteps(at, cap, index, steps);
      assert e.state == index;
      SoundGrow(msg, index, at, at + |e.bytes|);
    }
  }

  /** IndexAfterPack for a pass whose lookup misses: the label, then the
      rest of the passes from the index with its key recorded. */
  lemma {:induction false} IndexAfterLabel(msg: seq<byte>, at: nat, cap: int, index: Index,
                                           steps: seq<Step>)
    requires steps != [] && !Hit(index, steps[0].suffix)
    requires Readable(steps) && Shrinking(steps)
    requires PackSteps(at, cap, index, steps).status == Going
    requires At(msg, at, PackSteps(at, cap, index, steps).bytes)
    requires 0 < at && Sound(msg, index, at)
    ensures var e := PackSteps(at, cap, index, steps);
      Sound(msg, e.state, at + |e.bytes|)
    decreases |steps|, 0
  {
    var first := steps[0].first;
    var at', index' := at + 1 + |first|, index[steps[0].suffix := at];
    var e, er := PackSteps(at, cap, index, steps), PackSteps(at', cap, index', steps[1..]);
    assert e.bytes == StringBytes(first) + er.bytes && er.status == Going && e.state == er.state by {
      LabelPass(at, cap, index, steps);
    }
    assert Readable(steps[1..]) && Shrinking(steps[1..]) by {
      ReadableHead(steps);
      ShrinkingTail(steps);
    }
    assert At(msg, at', er.bytes) by {
      AtTail(msg, at, e.bytes, StringBytes(first), er.bytes);
    }
    assert Sound(msg, index', at') by {
      SoundAfterLabel(msg, at, cap, index, steps);
    }
    IndexAfterPack(msg, at', cap, index', steps[1..]);
    assert at + |e.bytes| == at' + |er.bytes|;
  }

  /** A sound index stays sound as the message grows. */
  lemma {:induction false} SoundGrow(msg: seq<byte>, index: Index, at: int, at': int)
    requires Sound(msg, index, at) && at <= at'
    ensures Sound(msg, index, at')
  {
    forall t | Entry(index, t)
      ensures 0 < index[t] < at' && ReadsAs(msg, index[t], t)
    {
    }
  }

  /** Recording the first key of a name written at offset at keeps the
      index sound just past its first label. */
  lemma {:induction false} SoundAfterLabel(msg: seq<byte>, at: nat, cap: int, index: Index,
                                           steps: seq<Step>)
    requires steps != [] && !Hit(index, steps[0].suffix)
    requires Readable(steps) && Shrinking(steps)
    requires PackSteps(at, cap, index, steps).status == Going
    requires At(msg, at, PackSteps(at, cap, index, steps).bytes)
    requires 0 < at && Sound(msg, index, at)
    ensures Sound(msg, index[steps[0].suffix := at], at + 1 + |steps[0].first|)
  {
    SoundEndReads(msg, index, steps, at, at);
    UnpackPacked(msg, at, cap, index, steps, at);
    SoundRecord(msg, index, steps[0].suffix, at, at + 1 + |steps[0].first|);
  }

  /** name_pack followed by nameUnpack, with a hop budget of at least the
      offset: the name comes back, the cursor stops right after it, and
      the index stays sound. The name's
      steps are passed alongside it: PackName(at, cap, index, s) is
      PackSteps(at, cap, index, Steps(s)). */
  lemma {:induction false} PackUnpack(msg: seq<byte>, at: nat, cap: int, index: Index, s: string,
                                      steps: seq<Step>, h: nat)
    requires ReadableName(s)
    requires steps == Steps(s)
    requires PackSteps(at, cap, index, steps).status == Going
    requires At(msg, at, PackSteps(at, cap, index, steps).bytes)
    requires 0 < at <= h && Sound(msg, index, at)
    ensures var e := PackSteps(at, cap, index, steps);
      Reads(NameAt(msg, at, h), s, at + |e.bytes|)
    ensures var e := PackSteps(at, cap, index, steps);
      Sound(msg, e.state, at + |e.bytes|)
  {
    StepsShrink(s);
    if s != "" {
      StepsReadable(s);
    }
    KeyOfSteps(s);
    SoundEndReads(msg, index, steps, at, h);
    UnpackPacked(msg, at, cap, index, steps, h);
    IndexAfterPack(msg, at, cap, index, steps);
  }

  /** The same for PackName: a name packed and read back from where it was
      written, the root name included, ends where the next field starts. */
  lemma {:induction false} NamePackRead(msg: seq<byte>, at: nat, cap: int, index: Index, s: string, h: nat)
    requires ReadableName(s)
    requires PackName(at, cap, index, s).status == Going
    requires At(msg, at, PackName(at, cap, index, s).bytes)
    requires 0 < at <= h && Sound(msg, index, at)
    ensures var e := PackName(at, cap, index, s);
      Reads(NameAt(msg, at, h), s, at + |e.bytes|) &&
      Sound(msg, e.state, at + |e.bytes|)
  {
    PackUnpack(msg, at, cap, index, s, Steps(s), h);
  }

  // ---------------------------------------------------------------------
  // nameUnpack as packet.js writes it.

  /** The labels and end offset of packet.js's nameUnpack loop. After a
      label, `end` is taken right after the next length octet is read; when
      that octet starts a pointer, the pointer's second octet is read after
      it and `end` is not moved again, so the cursor is left inside the
      pointer. */
  function UnpackAsWritten(msg: seq<byte>, p: nat, hops: nat): (r: Result<(string, nat), DecodeError>)
    decreases hops, |msg| - p
  {
    if p >= |msg| then Failure(ReadPastEnd)
    else if msg[p] == 0 then Success(("", p + 1))
    else if IsPointer(msg[p]) then
      if p + 1 >= |msg| then Failure(ReadPastEnd)
      else if hops == 0 then Failure(TooManyHops)
      else if PointerTarget(msg[p], msg[p + 1]) > |msg| then Failure(BadSeek)
      else
        var u := UnpackAsWritten(msg, PointerTarget(msg[p], msg[p + 1]), hops - 1);
        if u.Failure? then u else Success((u.value.0, p + 2))
    else
      var q := p + 1 + msg[p];
      if q > |msg| then Failure(ReadPastEnd)
      else
        var u := UnpackAsWritten(msg, q, hops);
        if u.Failure? then u
        else
          var end := if msg[q] == 0 || IsPointer(msg[q]) then q + 1 else u.value.1;
          Success((Join(AsciiString(msg[p + 1..q]), u.value.0), end))
  }

  /** packet.js's nameUnpack in full: for a name that is a lone zero octet
      the loop never runs, `end` stays undefined, and the cursor rejects
      the seek to it. */
  function NameAtAsWritten(msg: seq<byte>, p: nat, hops: nat): Result<(string, nat), DecodeError>
  {
    if p < |msg| && msg[p] == 0 then Failure(BadSeek) else UnpackAsWritten(msg, p, hops)
  }

  /** The loop as written and the intended reading fail alike and read the
      same labels; the cursor is left where the name ends or one octet
      before it. */
  lemma {:induction false} AsWrittenAgrees(msg: seq<byte>, p: nat, h: nat)
    ensures var w, n := UnpackAsWritten(msg, p, h), NameAt(msg, p, h);
      w.Success? == n.Success? && (w.Failure? ==> w.error == n.error) &&
      (w.Success? ==> w.value.0 == n.value.0 && n.value.1 - 1 <= w.value.1 <= n.value.1)
    decreases h, |msg| - p
  {
    if p < |msg| && msg[p] != 0 {
      if IsPointer(msg[p]) {
        if p + 1 < |msg| && h > 0 && PointerTarget(msg[p], msg[p + 1]) <= |msg| {
          AsWrittenAgrees(msg, PointerTarget(msg[p], msg[p + 1]), h - 1);
        }
      } else if p + 1 + msg[p] <= |msg| {
        AsWrittenAgrees(msg, p + 1 + msg[p], h);
      }
    }
  }

  /** Concretely: "com" at offset 1, then "foo" and a pointer to offset 1
      at offset 6. Both readings give "foo.com" from offset 6; the intended
      one ends at 12, after the pointer at offsets 10 and 11, while
      packet.js leaves the cursor at 11, so whatever follows the name is
      read one octet early. */
  lemma {:induction false} AsWrittenEndsInsidePointer()
    ensures var msg: seq<byte> := [0, 3, 99, 111, 109, 0, 3, 102, 111, 111, 0xC0, 1];
      Reads(NameAtAsWritten(msg, 6, 1), "foo.com", 11) && Reads(NameAt(msg, 6, 1), "foo.com", 12)
  {
    var msg: seq<byte> := [0, 3, 99, 111, 109, 0, 3, 102, 111, 111, 0xC0, 1];
    var com: seq<byte>, foo: seq<byte> := [99, 111, 109], [102, 111, 111];
    assert msg[1] == 3 && msg[5] == 0 && msg[6] == 3 && msg[10] == 0xC0 && msg[11] == 1;
    assert msg[2..5] == com by {
      assert msg[2] == 99 && msg[3] == 111 && msg[4] == 109;
    }
    assert msg[7..10] == foo by {
      assert msg[7] == 102 && msg[8] == 111 && msg[9] == 111;
    }
    assert AsciiString(com) == "com" by {
      assert AsciiString([109]) == "m";
      assert AsciiString([111, 109]) == "om";
    }
    assert AsciiString(foo) == "foo" by {
      assert AsciiString([111]) == "o";
      assert AsciiString([111, 111]) == "oo";
    }
    assert Join("com", "") == "com" && Join("foo", "com") == "foo.com";
    assert Reads(UnpackAsWritten(msg, 5, 0), "", 6) && Reads(NameAt(msg, 5, 0), "", 6);
    assert Reads(UnpackAsWritten(msg, 1, 0), "com", 6) && Reads(NameAt(msg, 1, 0), "com", 6);
    assert Reads(UnpackAsWritten(msg, 10, 1), "com", 12) && Reads(NameAt(msg, 10, 1), "com", 12);
  }

  /** Concretely: the root name, a lone zero octet, fails to read as
      written, where the intended reading gives "" and ends after it. */
  lemma {:induction false} AsWrittenRootFails()
    ensures NameAtAsWritten([0], 0, 0) == Failure(BadSeek)
    ensures Reads(NameAt([0], 0, 0), "", 1)
  {
  }

  // ---------------------------------------------------------------------
  // The imperative name_pack and nameUnpack.

  /** name_pack(str, buff, index): writes s at the cursor and returns the
      index it leaves (name_pack mutates the caller's index object). */
  method NamePack(s: string, buff: Writer, index: Index) returns (st: Status, index': Index)
    requires buff.Valid()
    modifies buff, buff.buf
    ensures buff.Valid() && buff.Kept(old(buff.buf[..]), old(buff.pos))
    ensures var e := PackName(old(buff.pos), buff.buf.Length, index, s);
      st == e.status && index' == e.state &&
      (st == Going ==> buff.buf[..buff.pos] == old(buff.buf[..buff.pos]) + e.bytes)
  {
    ghost var at0, cap := buff.pos, buff.buf.Length;
    ghost var prefix := buff.buf[..buff.pos];
    ghost var written: seq<byte> := [];
    ghost var buf0 := buff.buf[..];
    var str := s;
    index' := index;
    while str != "" && !Hit(index', str)
      invariant buff.Valid() && buff.buf.Length == cap && buff.Kept(buf0, at0)
      invariant buff.buf[..buff.pos] == prefix + written
      invariant PackName(at0, cap, index, s) == Cat(written, PackName(buff.pos, cap, index', str))
      decreases |str|
    {
      ghost var part := SplitLabel(str).0;
      st, index', str := PackLabel(str, buff, index');
      if st != Going {
        return;
      }
      CatCat(written, StringBytes(part), PackName(buff.pos, cap, index', str));
      written := written + StringBytes(part);
    }
    ghost var p, mid := buff.pos, buff.buf[..];
    st := PackEnd(str, buff, index');
    PrefixTrans(buf0, mid, buff.buf[..], at0, p);
    if st == Going {
      AppendAssoc(prefix, written, PackName(p, cap, index', str).bytes);
    }
  }

  /** How name_pack ends, after the loop stopped on a suffix already in the
      index or ran out of labels: the pointer, or the zero octet. */
  method PackEnd(str: string, buff: Writer, index: Index) returns (st: Status)
    requires buff.Valid() && (str == "" || Hit(index, str))
    modifies buff, buff.buf
    ensures buff.Valid() && buff.Kept(old(buff.buf[..]), old(buff.pos))
    ensures var e := PackName(old(buff.pos), buff.buf.Length, index, str);
      st == e.status && e.state == index &&
      (st == Going ==> buff.buf[..buff.pos] == old(buff.buf[..buff.pos]) + e.bytes)
  {
    PackNameEnds(buff.pos, buff.buf.Length, index, str);
    if str != "" {
      st := buff.WriteU16(LABEL_POINTER * 0x100 + index[str]);
    } else {
      st := buff.WriteU8(0);
    }
  }

  /** A pass of name_pack's loop whose lookup misses: the suffix is recorded
      at the cursor's offset and its first label written; the loop goes on
      with what follows the first dot. */
  method PackLabel(str: string, buff: Writer, index: Index) returns (st: Status, index': Index, rest: string)
    requires buff.Valid() && str != "" && !Hit(index, str)
    modifies buff, buff.buf
    ensures buff.Valid() && buff.Kept(old(buff.buf[..]), old(buff.pos))
    ensures rest == Rest(str) && |rest| < |str| && index' == index[str := old(buff.pos)]
    ensures var e := PackName(old(buff.pos), buff.buf.Length, index, str);
      var part := SplitLabel(str).0;
      if st == Going then
        buff.buf[..buff.pos] == old(buff.buf[..buff.pos]) + StringBytes(part) &&
        e == Cat(StringBytes(part), PackName(buff.pos, buff.buf.Length, index', rest))
      else e.status == st && e.state == index'
  {
    PackNameStep(buff.pos, buff.buf.Length, index, str);
    index' := index[str := buff.pos];
    var (part, next) := SplitLabel(str);
    rest := next.GetOr("");
    st := buff.WriteString(part);
  }

  /** How the loop of NameUnpack finishes from its state: the length octet
      just read at offset at, the labels joined so far, the end offset (None
      while unset) and whether a pointer was followed. */
  ghost function Resume(msg: seq<byte>, at: nat, hops: nat, combine: string,
                        end: Option<nat>, comp: bool): Result<(string, nat), DecodeError>
  {
    var u := NameAt(msg, at, hops);
    if u.Failure? then u
    else
      var t := u.value;
      if comp then Success((Join(combine, t.0), end.GetOr(0))) else Success((Join(combine, t.0), t.1))
  }

  lemma {:induction false} JoinAssoc(a: string, part: string, b: string)
    requires part != ""
    ensures Join(a, Join(part, b)) == Join(Join(a, part), b)
  {
  }

  /** The zero octet at offset at ends the name; the end offset is just
      after it unless a pointer fixed it. */
  lemma {:induction false} ResumeZero(msg: seq<byte>, at: nat, hops: nat, combine: string,
                                      end: Option<nat>, comp: bool)
    requires at < |msg| && msg[at] == 0
    requires comp ==> end.Some?
    requires !comp && end.Some? ==> end.value == at + 1
    ensures Resume(msg, at, hops, combine, end, comp) == Success((combine, end.GetOr(at + 1)))
  {
    assert Join(combine, "") == combine;
  }

  /** A pointer octet at offset at: nameUnpack reads the next octet, fixes
      the end offset just after it unless a pointer was followed before,
      and goes on at the target. */
  lemma {:induction false} ResumePointer(msg: seq<byte>, at: nat, hops: nat, combine: string,
                      end: Option<nat>, comp: bool)
    requires at < |msg| && IsPointer(msg[at])
    requires comp ==> end.Some?
    requires !comp && end.Some? ==> end.value == at + 1
    ensures Resume(msg, at, hops, combine, end, comp) ==
      if at + 1 >= |msg| then Failure(ReadPastEnd)
      else if hops == 0 then Failure(TooManyHops)
      else if PointerTarget(msg[at], msg[at + 1]) > |msg| then Failure(BadSeek)
      else Resume(msg, PointerTarget(msg[at], msg[at + 1]), hops - 1, combine,
                  if comp then end else Some(at + 2), true)
  {
  }

  /** A label at offset at: nameUnpack reads it, joins it and reads the
      next length octet, which sets the end offset while no pointer was
      followed. */
  lemma {:induction false} ResumeLabel(msg: seq<byte>, at: nat, hops: nat, combine: string,
                    end: Option<nat>, comp: bool)
    requires at < |msg| && msg[at] != 0 && !IsPointer(msg[at])
    ensures var q := at + 1 + msg[at];
      Resume(msg, at, hops, combine, end, comp) ==
        if q >= |msg| then Failure(ReadPastEnd)
        else Resume(msg, q, hops, Join(combine, AsciiString(msg[at + 1..q])),
                    if comp then end else Some(q + 1), comp)
  {
    var q := at + 1 + msg[at];
    if q < |msg| {
      var part := AsciiString(msg[at + 1..q]);
      match NameAt(msg, q, hops)
      case Failure(_) =>
      case Success(t) =>
        JoinAssoc(combine, part, t.0);
    }
  }

  /** NameUnpack's loop from the length octet at offset at (already read,
      with the cursor just past it): what it returns and where it leaves the
      cursor. A pointer costs one hop of the budget. */
  ghost function Walk(msg: seq<byte>, at: nat, hops: nat, combine: string,
                      end: Option<nat>, comp: bool): Result<(string, nat), DecodeError>
    requires at < |msg|
    decreases hops, |msg| - at
  {
    var len := msg[at];
    if len == 0 then Success((combine, end.GetOr(at + 1)))
    else if IsPointer(len) then
      if at + 1 >= |msg| then Failure(ReadPastEnd)
      else if hops == 0 then Failure(TooManyHops)
      else
        var target := PointerTarget(len, msg[at + 1]);
        if target > |msg| then Failure(BadSeek)
        else if target == |msg| then Failure(ReadPastEnd)
        else Walk(msg, target, hops - 1, combine, if comp then end else Some(at + 2), true)
    else
      var q := at + 1 + len;
      if q >= |msg| then Failure(ReadPastEnd)
      else Walk(msg, q, hops, Join(combine, AsciiString(msg[at + 1..q])),
                if comp then end else Some(q + 1), comp)
  }

  /** The loop finishes as the recursive reading says it does. */
  lemma {:induction false} WalkResume(msg: seq<byte>, at: nat, hops: nat, combine: string,
                                      end: Option<nat>, comp: bool)
    requires at < |msg|
    requires comp ==> end.Some?
    requires !comp && end.Some? ==> end.value == at + 1
    ensures Walk(msg, at, hops, combine, end, comp) == Resume(msg, at, hops, combine, end, comp)
    decreases hops, |msg| - at, 1
  {
    if msg[at] == 0 {
      ResumeZero(msg, at, hops, combine, end, comp);
      assert Walk(msg, at, hops, combine, end, comp) == Success((combine, end.GetOr(at + 1)));
    } else if IsPointer(msg[at]) {
      WalkResumePointer(msg, at, hops, combine, end, comp);
    } else {
      WalkResumeLabel(msg, at, hops, combine, end, comp);
    }
  }

  /** WalkResume at a pointer octet. */
  lemma {:induction false} WalkResumePointer(msg: seq<byte>, at: nat, hops: nat, combine: string,
                                             end: Option<nat>, comp: bool)
    requires at < |msg| && IsPointer(msg[at])
    requires comp ==> end.Some?
    requires !comp && end.Some? ==> end.value == at + 1
    ensures Walk(msg, at, hops, combine, end, comp) == Resume(msg, at, hops, combine, end, comp)
    decreases hops, |msg| - at, 0
  {
    ResumePointer(msg, at, hops, combine, end, comp);
    if at + 1 < |msg| && hops > 0 && PointerTarget(msg[at], msg[at + 1]) <= |msg| {
      var target, end' := PointerTarget(msg[at], msg[at + 1]), if comp then end else Some(at + 2);
      if target < |msg| {
        WalkResume(msg, target, hops - 1, combine, end', true);
        assert Walk(msg, at, hops, combine, end, comp) == Walk(msg, target, hops - 1, combine, end', true) by {
          WalkPointer(msg, at, hops, combine, end, comp);
        }
      } else {
        assert Resume(msg, target, hops - 1, combine, end', true) == Failure(ReadPastEnd);
      }
    }
  }

  /** WalkResume at a label's length octet. */
  lemma {:induction false} WalkResumeLabel(msg: seq<byte>, at: nat, hops: nat, combine: string,
                                           end: Option<nat>, comp: bool)
    requires at < |msg| && msg[at] != 0 && !IsPointer(msg[at])
    requires comp ==> end.Some?
    requires !comp && end.Some? ==> end.value == at + 1
    ensures Walk(msg, at, hops, combine, end, comp) == Resume(msg, at, hops, combine, end, comp)
    decreases hops, |msg| - at, 0
  {
    ResumeLabel(msg, at, hops, combine, end, comp);
    var q := at + 1 + msg[at];
    if q < |msg| {
      var part, end' := AsciiString(msg[at + 1..q]), if comp then end else Some(q + 1);
      WalkResume(msg, q, hops, Join(combine, part), end', comp);
      assert Walk(msg, at, hops, combine, end, comp) == Walk(msg, q, hops, Join(combine, part), end', comp) by {
        WalkLabel(msg, at, hops, combine, end, comp);
      }
    }
  }

  /** One pass of the loop over a pointer that leads inside the message. */
  lemma {:induction false} WalkPointer(msg: seq<byte>, at: nat, hops: nat, combine: string,
                                       end: Option<nat>, comp: bool)
    requires at + 1 < |msg| && IsPointer(msg[at]) && hops > 0
    requires PointerTarget(msg[at], msg[at + 1]) < |msg|
    ensures Walk(msg, at, hops, combine, end, comp) ==
      Walk(msg, PointerTarget(msg[at], msg[at + 1]), hops - 1, combine,
           if comp then end else Some(at + 2), true)
  {
  }

  /** One pass of the loop over a label that ends inside the message. */
  lemma {:induction false} WalkLabel(msg: seq<byte>, at: nat, hops: nat, combine: string,
                                     end: Option<nat>, comp: bool)
    requires at < |msg| && msg[at] != 0 && !IsPointer(msg[at]) && at + 1 + msg[at] < |msg|
    ensures var q := at + 1 + msg[at];
      Walk(msg, at, hops, combine, end, comp) ==
        Walk(msg, q, hops, Join(combine, AsciiString(msg[at + 1..q])), if comp then end else Some(q + 1), comp)
  {
  }

  /** nameUnpack from offset p0 is its loop started on the first length octet. */
  lemma {:induction false} NameAtWalk(msg: seq<byte>, p0: nat, hops: nat)
    requires p0 < |msg|
    ensures NameAt(msg, p0, hops) == Walk(msg, p0, hops, "", None, false)
  {
    WalkResume(msg, p0, hops, "", None, false);
  }

  /** nameUnpack(buff) with a budget of `hops` pointer jumps, with the two
      corrections NameAt makes: the first pointer fixes the end offset
      after itself unless a pointer was followed before, and a name that
      never set it ends after its zero octet. */
  method NameUnpack(buff: Reader, hops: nat) returns (r: Result<string, DecodeError>)
    requires buff.Valid()
    modifies buff
    ensures buff.Valid()
    ensures var n := NameAt(buff.data, old(buff.pos), hops);
      (r.Success? <==> n.Success?) &&
      (r.Success? ==> r.value == n.value.0 && buff.pos == n.value.1) &&
      (r.Failure? ==> r.error == n.error)
  {
    ghost var p0: nat := buff.pos;
    var len := buff.ReadU8();
    if len.Failure? {
      return Failure(len.error);
    }
    NameAtWalk(buff.data, p0, hops);
    var res := UnpackLoop(buff, len.value, hops);
    if res.Failure? {
      return Failure(res.error);
    }
    buff.Seek(res.value.1);
    r := Success(res.value.0);
  }

  /** The loop of nameUnpack, entered with the first length octet read: the
      name and the end offset it would seek to. */
  method UnpackLoop(buff: Reader, len0: byte, hops: nat)
    returns (r: Result<(string, nat), DecodeError>)
    requires buff.Valid() && 0 < buff.pos && buff.data[buff.pos - 1] == len0
    modifies buff
    ensures buff.Valid()
    ensures r == Walk(buff.data, old(buff.pos) - 1, hops, "", None, false)
    ensures r.Success? ==> r.value.1 <= |buff.data|
  {
    ghost var msg := buff.data;
    ghost var at: nat := buff.pos - 1;
    ghost var goal := Walk(msg, at, hops, "", None, false);
    var len := len0;
    var comp := false;
    var end: Option<nat> := None;
    var combine := "";
    var fuel := hops;
    while len != 0
      invariant buff.Valid() && buff.data == msg
      invariant at + 1 == buff.pos && at < |msg| && msg[at] == len
      invariant end.Some? ==> end.value <= |msg|
      invariant goal == Walk(msg, at, fuel, combine, end, comp)
      decreases fuel, |msg| - buff.pos
    {
      var err;
      if IsPointer(len) {
        err, len, at, fuel, end := FollowPointer(buff, len, at, fuel, combine, end, comp);
        comp := true;
      } else {
        err, len, at, combine, end := ReadLabel(buff, len, at, fuel, combine, end, comp);
      }
      if err.Some? {
        return Failure(err.value);
      }
    }
    r := Success((combine, end.GetOr(buff.pos)));
  }

  /** One pass of NameUnpack's loop from the length octet at `at` to the
      length octet at `at'`: the reading goes on there unchanged, with fewer
      pointers left or further on in the message. */
  ghost predicate Moved(msg: seq<byte>, at: nat, fuel: nat, combine: string, end: Option<nat>, comp: bool,
                        len': byte, at': nat, fuel': nat, combine': string, end': Option<nat>, comp': bool)
    requires at < |msg|
  {
    at' < |msg| && msg[at'] == len' && (end'.Some? ==> end'.value <= |msg|) &&
    (fuel' < fuel || (fuel' == fuel && at' > at)) &&
    Walk(msg, at, fuel, combine, end, comp) == Walk(msg, at', fuel', combine', end', comp')
  }

  /** The pointer branch of nameUnpack's loop: read the low octet, fix the
      end offset after it unless a pointer was followed before, seek to the
      target and read its octet. */
  method FollowPointer(buff: Reader, len: byte, ghost at: nat, fuel: nat, ghost combine: string,
                       end: Option<nat>, comp: bool)
    returns (err: Option<DecodeError>, len': byte, ghost at': nat, fuel': nat, end': Option<nat>)
    requires buff.Valid() && at + 1 == buff.pos && at < |buff.data| && buff.data[at] == len
    requires IsPointer(len) && (end.Some? ==> end.value <= |buff.data|)
    modifies buff
    ensures buff.Valid()
    ensures err.Some? ==> Walk(buff.data, at, fuel, combine, end, comp) == Failure(err.value)
    ensures err.None? ==>
      at' + 1 == buff.pos &&
      Moved(buff.data, at, fuel, combine, end, comp, len', at', fuel', combine, end', true)
  {
    var lo := buff.ReadU8();
    if lo.Failure? {
      return Some(lo.error), 0, 0, 0, None;
    }
    if fuel == 0 {
      return Some(TooManyHops), 0, 0, 0, None;
    }
    var target := PointerTarget(len, lo.value);
    end' := if comp then end else Some(buff.pos);
    if target > |buff.data| {
      return Some(BadSeek), 0, 0, 0, None;
    }
    buff.Seek(target);
    var next := buff.ReadU8();
    if next.Failure? {
      return Some(next.error), 0, 0, 0, None;
    }
    err, len', at', fuel' := None, next.value, target, fuel - 1;
    WalkPointer(buff.data, at, fuel, combine, end, comp);
  }

  /** The label branch of nameUnpack's loop: read the label, join it, read
      the next length octet and, while no pointer was followed, move the end
      offset past it. */
  method ReadLabel(buff: Reader, len: byte, ghost at: nat, ghost fuel: nat, combine: string,
                   end: Option<nat>, comp: bool)
    returns (err: Option<DecodeError>, len': byte, ghost at': nat, combine': string, end': Option<nat>)
    requires buff.Valid() && at + 1 == buff.pos && at < |buff.data| && buff.data[at] == len
    requires len != 0 && !IsPointer(len) && (end.Some? ==> end.value <= |buff.data|)
    modifies buff
    ensures buff.Valid()
    ensures err.Some? ==> Walk(buff.data, at, fuel, combine, end, comp) == Failure(err.value)
    ensures err.None? ==>
      at' + 1 == buff.pos &&
      Moved(buff.data, at, fuel, combine, end, comp, len', at', fuel, combine', end', comp)
  {
    ghost var q := at + 1 + len;
    var part := buff.ReadAscii(len);
    if part.Failure? {
      return Some(part.error), 0, 0, "", None;
    }
    assert part.value == AsciiString(buff.data[at + 1..q]);
    var next := buff.ReadU8();
    if next.Failure? {
      return Some(next.error), 0, 0, "", None;
    }
    err, len', at', combine' := None, next.value, q, Join(combine, part.value);
    end' := if comp then end else Some(buff.pos);
    assert end' == if comp then end else Some(q + 1);
  }
}
