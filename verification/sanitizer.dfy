/** The clean-up `generate_sql` (gemini_generator.py) applies to the model's
    reply text before returning it: trim, drop a Markdown code fence, drop a
    leading `sql` language-tag line, keep only the text before the first
    semicolon, and terminate it with one semicolon. */
module Sanitizer {
  import opened Text

  const Fence: string := "```"

  /** The tag test `sql_text.lower().startswith("sql\n")`. */
  predicate Tagged(t: string) {
    StartsWith(Lower(t), "sql\n")
  }

  /** Fence removal on trimmed text that starts with the fence: drop the
      first line when it starts with the fence, drop the last line when it
      starts with the fence, rejoin and trim. */
  function Unfence(t: string): string {
    var lines := SplitLines(t);
    var a := if |lines| > 0 && StartsWith(lines[0], Fence) then lines[1..] else lines;
    var b := if |a| > 0 && StartsWith(a[|a| - 1], Fence) then a[..|a| - 1] else a;
    Strip(Join(b, "\n"))
  }

  /** Tag removal: the three letters of a tag hold no line break, so
      `split("\n", 1)[1]` is everything after the fourth character. */
  function StripTag(t: string): string {
    if Tagged(t) then Strip(t[4..]) else t
  }

  /** A trimmed statement followed by its only semicolon. */
  predicate Terminated(r: string) {
    |r| >= 1 && r[|r| - 1] == ';' && ';' !in r[..|r| - 1] && IsStripped(r[..|r| - 1])
  }

  /** `sql_text.split(';')[0].strip() + ';'`. */
  function Terminate(t: string): (r: string)
    ensures Terminated(r)
  {
    var head := Split(t, ';')[0];
    var body := Strip(head);
    assert ';' !in body by {
      var lead, trail := StripParts(head);
      assert forall k :: 0 <= k < |body| ==> body[k] == head[|lead| + k];
    }
    assert (body + ";")[..|body|] == body;
    body + ";"
  }

  /** Trimming followed by fence removal when the trimmed text starts with
      the fence. */
  function StripFence(text: string): string {
    var t := Strip(text);
    if StartsWith(t, Fence) then Unfence(t) else t
  }

  /** The sanitised statement of a reply text: it ends with the only
      semicolon it contains, and the statement before it is trimmed. */
  function Sanitize(text: string): (r: string)
    ensures Terminated(r)
  {
    Terminate(StripTag(StripFence(text)))
  }

  // ---------------------------------------------------------------- lemmas

  /** Sanitising is terminating the trimmed, unfenced, untagged text. */
  lemma Stages(x: string, mid: string)
    requires StripTag(StripFence(x)) == mid
    ensures Sanitize(x) == Terminate(mid)
  {
  }

  lemma StripFencePlain(t: string)
    requires IsStripped(t) && !StartsWith(t, Fence)
    ensures StripFence(t) == t
  {
    StripStripped(t);
  }

  /** A statement without semicolons, followed by one, keeps exactly that. */
  lemma TerminateAt(stmt: string, rest: string)
    requires IsStripped(stmt) && ';' !in stmt
    ensures Terminate(stmt + ";" + rest) == stmt + ";"
  {
    assert stmt + ";" + rest == stmt + [';'] + rest;
    SplitAtSep(stmt, rest, ';');
    StripStripped(stmt);
  }

  lemma TerminateSemi(stmt: string)
    requires IsStripped(stmt) && ';' !in stmt
    ensures Terminate(stmt + ";") == stmt + ";"
  {
    assert stmt + ";" + [] == stmt + ";";
    TerminateAt(stmt, []);
  }

  lemma TerminateWhole(stmt: string)
    requires IsStripped(stmt) && ';' !in stmt
    ensures Terminate(stmt) == stmt + ";"
  {
    SplitNoSep(stmt, ';');
    StripStripped(stmt);
  }

  /** Text with no fence, no tag and one terminating semicolon after a
      trimmed statement is already sanitised. */
  lemma PlainIsFixed(r: string)
    requires Terminated(r)
    requires !StartsWith(r, Fence) && !Tagged(r)
    ensures Sanitize(r) == r
  {
    var body := r[..|r| - 1];
    assert r == body + ";" + [];
    assert IsStripped(r);
    StripFencePlain(r);
    TerminateAt(body, []);
  }

  /** Conditional idempotence: re-sanitising an output that does not start
      with the fence or with a tag line gives it back unchanged. */
  lemma ResanitizeUntagged(text: string)
    requires !StartsWith(Sanitize(text), Fence) && !Tagged(Sanitize(text))
    ensures Sanitize(Sanitize(text)) == Sanitize(text)
  {
    PlainIsFixed(Sanitize(text));
  }

  /** Texts with the same trimmed, unfenced, untagged form sanitise alike. */
  lemma SameStatement(a: string, b: string)
    requires StripTag(StripFence(a)) == StripTag(StripFence(b))
    ensures Sanitize(a) == Sanitize(b)
  {
  }

  lemma FencedIsStripped(opening: string, body: string)
    requires StartsWith(opening, Fence)
    ensures IsStripped(opening + "\n" + body + "\n" + Fence)
    ensures StartsWith(opening + "\n" + body + "\n" + Fence, Fence)
  {
    var text := opening + "\n" + body + "\n" + Fence;
    assert text[..3] == opening[..3];
    assert text[0] == '`';
    assert text[|text| - 1] == '`';
  }

  lemma StripFenceFenced(opening: string, body: string)
    requires '\n' !in opening && StartsWith(opening, Fence)
    ensures StripFence(opening + "\n" + body + "\n" + Fence) == Strip(body)
  {
    var text := opening + "\n" + body + "\n" + Fence;
    FencedIsStripped(opening, body);
    StripStripped(text);
    UnfenceBlock(opening, body);
  }

  lemma StripFenceUnfenced(body: string)
    requires !StartsWith(Strip(body), Fence)
    ensures StripFence(body) == Strip(body)
  {
  }

  /** A fenced block is transparent: whatever the tag on the opening fence
      line, the block sanitises like its content alone. */
  lemma FenceTransparent(tag: string, body: string)
    requires '\n' !in tag
    requires !StartsWith(Strip(body), Fence)
    ensures Sanitize(Fence + tag + "\n" + body + "\n" + Fence) == Sanitize(body)
  {
    var opening := Fence + tag;
    assert StartsWith(opening, Fence) by {
      assert opening[..3] == Fence;
    }
    assert Fence + tag + "\n" + body + "\n" + Fence == opening + "\n" + body + "\n" + Fence;
    StripFenceFenced(opening, body);
    StripFenceUnfenced(body);
    SameStatement(Fence + tag + "\n" + body + "\n" + Fence, body);
  }

  lemma UnfenceBlock(opening: string, body: string)
    requires '\n' !in opening && StartsWith(opening, Fence)
    ensures Unfence(opening + "\n" + body + "\n" + Fence) == Strip(body)
  {
    var text := opening + "\n" + body + "\n" + Fence;
    BlockLines(opening, body);
    UnfenceLines(text, opening, Split(body, '\n'));
    JoinSplit(body, '\n');
  }

  lemma BlockLines(opening: string, body: string)
    requires '\n' !in opening
    ensures SplitLines(opening + "\n" + body + "\n" + Fence) == [opening] + Split(body, '\n') + [Fence]
  {
    var text := opening + "\n" + body + "\n" + Fence;
    assert text == opening + ['\n'] + (body + ['\n'] + Fence);
    SplitAtSep(opening, body + ['\n'] + Fence, '\n');
    SplitAppend(body, Fence, '\n');
    var parts := [opening] + Split(body, '\n') + [Fence];
    assert Split(text, '\n') == parts;
    assert parts[|parts| - 1] == Fence;
  }

  lemma UnfenceLines(t: string, opening: string, inner: seq<string>)
    requires t != []
    requires SplitLines(t) == [opening] + inner + [Fence]
    requires StartsWith(opening, Fence)
    ensures Unfence(t) == Strip(Join(inner, "\n"))
  {
    var lines := [opening] + inner + [Fence];
    assert lines[0] == opening;
    assert lines[1..] == inner + [Fence];
    assert (inner + [Fence])[..|inner|] == inner;
    assert StartsWith(Fence, Fence);
  }

  /** The last line of a text, as `str.split("\n")` gives it. */
  function LastLine(s: string): string {
    var parts := Split(s, '\n');
    parts[|parts| - 1]
  }

  /** An unclosed fence: when the last line does not start with the fence,
      only the opening line is dropped and the last line is kept. */
  lemma UnfenceOpen(opening: string, body: string)
    requires '\n' !in opening && StartsWith(opening, Fence)
    requires body != [] && body[|body| - 1] != '\n'
    requires !StartsWith(LastLine(body), Fence)
    ensures Unfence(opening + "\n" + body) == Strip(body)
  {
    var text := opening + "\n" + body;
    var inner := Split(body, '\n');
    assert text == opening + ['\n'] + body;
    SplitAtSep(opening, body, '\n');
    SplitLastNonEmpty(body, '\n');
    var lines := [opening] + inner;
    assert SplitLines(text) == lines;
    assert lines[1..] == inner;
    JoinSplit(body, '\n');
  }

  /** An unclosed fenced reply sanitises like the trimmed text after its
      opening line, whose last line is kept, whatever the tag on the
      opening line. */
  lemma OpenFenceTransparent(tag: string, body: string)
    requires '\n' !in tag
    requires body != [] && !IsSpace(body[|body| - 1])
    requires !StartsWith(LastLine(body), Fence)
    ensures Sanitize(Fence + tag + "\n" + body) == Terminate(StripTag(Strip(body)))
  {
    var opening := Fence + tag;
    var text := opening + "\n" + body;
    assert StartsWith(opening, Fence) by {
      assert opening[..3] == Fence;
    }
    assert IsStripped(text) && StartsWith(text, Fence) by {
      assert text[..3] == Fence;
      assert text[|text| - 1] == body[|body| - 1];
    }
    StripStripped(text);
    UnfenceOpen(opening, body);
  }

  /** A one-line statement after an unclosed fence comes out with its
      semicolon: the missing closing fence costs nothing. */
  lemma OpenFencedStatement(tag: string, stmt: string)
    requires '\n' !in tag
    requires stmt != [] && IsStripped(stmt) && ';' !in stmt && '\n' !in stmt
    requires !StartsWith(stmt, Fence) && !Tagged(stmt)
    ensures Sanitize(Fence + tag + "\n" + stmt) == stmt + ";"
  {
    SplitNoSep(stmt, '\n');
    OpenFenceTransparent(tag, stmt);
    StripStripped(stmt);
    StripTagPlain(stmt);
    TerminateWhole(stmt);
  }

  lemma TagLetter(tag: string)
    requires |tag| == 3 && Lower(tag) == "sql"
    ensures tag[0] == 's' || tag[0] == 'S'
  {
    assert Lower(tag)[0] == 's';
  }

  lemma StripFenceOfTrimmed(text: string, kept: string)
    requires Strip(text) == kept && !StartsWith(kept, Fence)
    ensures StripFence(text) == kept
  {
  }

  lemma StripTagged(tag: string, lead: string, core: string, trail: string)
    requires |tag| == 3 && Lower(tag) == "sql"
    requires AllSpace(lead) && IsStripped(core) && core != [] && AllSpace(trail)
    ensures Strip(tag + "\n" + (lead + core + trail)) == tag + "\n" + lead + core
  {
    var kept := tag + "\n" + lead + core;
    assert tag + "\n" + (lead + core + trail) == [] + kept + trail;
    TagLetter(tag);
    assert IsStripped(kept) by {
      assert kept[0] == tag[0];
      assert kept[|kept| - 1] == core[|core| - 1];
    }
    StripUnique([], kept, trail);
  }

  lemma StripFenceTagged(tag: string, lead: string, core: string, trail: string)
    requires |tag| == 3 && Lower(tag) == "sql"
    requires AllSpace(lead) && IsStripped(core) && core != [] && AllSpace(trail)
    ensures StripFence(tag + "\n" + (lead + core + trail)) == tag + "\n" + lead + core
  {
    var kept := tag + "\n" + lead + core;
    StripTagged(tag, lead, core, trail);
    TagLetter(tag);
    assert kept[0] == tag[0];
    StripFenceOfTrimmed(tag + "\n" + (lead + core + trail), kept);
  }

  lemma StripTagLine(tag: string, lead: string, core: string)
    requires |tag| == 3 && Lower(tag) == "sql"
    requires AllSpace(lead) && IsStripped(core)
    ensures StripTag(tag + "\n" + lead + core) == core
  {
    var kept := tag + "\n" + lead + core;
    assert Tagged(kept) by {
      assert Lower(kept)[..4] == Lower(tag) + "\n";
    }
    assert kept[4..] == lead + core + [];
    StripUnique(lead, core, []);
  }

  /** A leading tag line, in any letter case, is dropped: the rest sanitises
      as it would alone, provided it is neither empty, fenced nor tagged. */
  lemma TagTransparent(tag: string, body: string)
    requires |tag| == 3 && Lower(tag) == "sql"
    requires Strip(body) != []
    requires !StartsWith(Strip(body), Fence) && !Tagged(Strip(body))
    ensures Sanitize(tag + "\n" + body) == Sanitize(body)
  {
    var core := Strip(body);
    var lead, trail := StripParts(body);
    StripFenceTagged(tag, lead, core, trail);
    StripTagLine(tag, lead, core);
    assert StripTag(StripFence(tag + "\n" + body)) == core;
    StripFenceUnfenced(body);
    assert StripTag(StripFence(body)) == core;
    SameStatement(tag + "\n" + body, body);
  }

  /** A trimmed statement without semicolon, fence or tag gains the
      semicolon and nothing else. */
  lemma PlainStatement(stmt: string)
    requires IsStripped(stmt) && ';' !in stmt
    requires !StartsWith(stmt, Fence) && !Tagged(stmt)
    ensures Sanitize(stmt) == stmt + ";"
  {
    StripFencePlain(stmt);
    StripTagPlain(stmt);
    TerminateWhole(stmt);
  }

  /** The same statement behind a tag line: the tag goes, the semicolon
      comes. */
  lemma TaggedStatement(tag: string, stmt: string)
    requires |tag| == 3 && Lower(tag) == "sql"
    requires stmt != [] && IsStripped(stmt) && ';' !in stmt
    requires !StartsWith(stmt, Fence) && !Tagged(stmt)
    ensures Sanitize(tag + "\n" + stmt) == stmt + ";"
  {
    StripStripped(stmt);
    TagTransparent(tag, stmt);
    PlainStatement(stmt);
  }

  /** A terminated plain statement inside a fenced block comes out as it
      stands. */
  lemma FencedStatement(tag: string, stmt: string)
    requires '\n' !in tag
    requires stmt != [] && IsStripped(stmt) && ';' !in stmt
    requires !StartsWith(stmt, Fence) && !Tagged(stmt)
    ensures Sanitize(Fence + tag + "\n" + (stmt + ";") + "\n" + Fence) == stmt + ";"
  {
    FencedStage(tag, stmt);
    Stages(Fence + tag + "\n" + (stmt + ";") + "\n" + Fence, stmt + ";");
    TerminateSemi(stmt);
  }

  lemma FencedStage(tag: string, stmt: string)
    requires '\n' !in tag
    requires stmt != [] && IsStripped(stmt) && ';' !in stmt
    requires !StartsWith(stmt, Fence) && !Tagged(stmt)
    ensures StripTag(StripFence(Fence + tag + "\n" + (stmt + ";") + "\n" + Fence)) == stmt + ";"
  {
    var opening := Fence + tag;
    var t := stmt + ";";
    assert StartsWith(opening, Fence) by {
      assert opening[..3] == Fence;
    }
    assert Fence + tag + "\n" + t + "\n" + Fence == opening + "\n" + t + "\n" + Fence;
    StripFenceFenced(opening, t);
    PlainTerminated(stmt);
  }

  lemma PlainTerminated(stmt: string)
    requires stmt != [] && IsStripped(stmt) && ';' !in stmt
    requires !StartsWith(stmt, Fence) && !Tagged(stmt)
    ensures Strip(stmt + ";") == stmt + ";" && StripTag(stmt + ";") == stmt + ";"
  {
    assert stmt + ";" + [] == stmt + ";";
    StripStatement(stmt, []);
    PlainPrefix(stmt, []);
    StripTagPlain(stmt + ";");
  }

  lemma SelectOneFacts(stmt: string)
    requires stmt == "SELECT 1"
    ensures stmt != [] && IsStripped(stmt) && ';' !in stmt
    ensures !StartsWith(stmt, Fence) && !Tagged(stmt)
  {
    assert Lower(stmt)[1] == 'e';
  }

  /** The letters of a tag are neither spaces, backquotes nor semicolons. */
  lemma TagLetters(tag: string)
    requires |tag| == 3 && Lower(tag) == "sql"
    ensures ';' !in tag && !IsSpace(tag[0]) && tag[0] != '`'
  {
    assert Lower(tag)[0] == 's' && Lower(tag)[1] == 'q' && Lower(tag)[2] == 'l';
  }

  /** A tag line in front of an already terminated statement. */
  lemma TaggedStatementTerminated(tag: string, stmt: string)
    requires |tag| == 3 && Lower(tag) == "sql"
    requires stmt != [] && IsStripped(stmt) && ';' !in stmt
    requires !StartsWith(stmt, Fence) && !Tagged(stmt)
    ensures Sanitize(tag + "\n" + (stmt + ";")) == stmt + ";"
  {
    TaggedStage(tag, stmt);
    Stages(tag + "\n" + (stmt + ";"), stmt + ";");
    TerminateSemi(stmt);
  }

  lemma TaggedStage(tag: string, stmt: string)
    requires |tag| == 3 && Lower(tag) == "sql"
    requires stmt != [] && IsStripped(stmt) && ';' !in stmt
    ensures StripTag(StripFence(tag + "\n" + (stmt + ";"))) == stmt + ";"
  {
    var t := stmt + ";";
    assert IsStripped(t) && t != [] by {
      assert t[0] == stmt[0];
    }
    assert tag + "\n" + t == tag + "\n" + ([] + t + []);
    StripFenceTagged(tag, [], t, []);
    StripTagLine(tag, [], t);
  }

  /** A doubled tag line loses one tag per pass, so sanitising is not
      idempotent: the second pass removes the second tag. */
  lemma DoubleTag(tag: string, stmt: string)
    requires |tag| == 3 && Lower(tag) == "sql"
    requires stmt != [] && IsStripped(stmt) && ';' !in stmt
    requires !StartsWith(stmt, Fence) && !Tagged(stmt)
    ensures Sanitize(tag + "\n" + (tag + "\n" + stmt)) == tag + "\n" + (stmt + ";")
    ensures Sanitize(Sanitize(tag + "\n" + (tag + "\n" + stmt))) == stmt + ";"
  {
    TaggedOnce(tag, stmt);
    TaggedStatementTerminated(tag, stmt);
  }

  /** A tag line in front of a plain statement is itself a trimmed,
      semicolon-free text. */
  lemma TagLineFacts(tag: string, stmt: string)
    requires |tag| == 3 && Lower(tag) == "sql"
    requires stmt != [] && IsStripped(stmt) && ';' !in stmt
    ensures IsStripped(tag + "\n" + stmt) && ';' !in tag + "\n" + stmt
    ensures !StartsWith(tag + "\n" + stmt, Fence)
  {
    var once := tag + "\n" + stmt;
    TagLetters(tag);
    assert once[0] == tag[0] && once[|once| - 1] == stmt[|stmt| - 1];
    assert once == tag + ("\n" + stmt);
  }

  /** The first pass over a doubled tag removes the first tag only. */
  lemma TaggedOnce(tag: string, stmt: string)
    requires |tag| == 3 && Lower(tag) == "sql"
    requires stmt != [] && IsStripped(stmt) && ';' !in stmt
    ensures Sanitize(tag + "\n" + (tag + "\n" + stmt)) == tag + "\n" + (stmt + ";")
  {
    TaggedOnceStage(tag, stmt);
    Stages(tag + "\n" + (tag + "\n" + stmt), tag + "\n" + stmt);
    TerminateTagLine(tag, stmt);
  }

  lemma TerminateTagLine(tag: string, stmt: string)
    requires |tag| == 3 && Lower(tag) == "sql"
    requires stmt != [] && IsStripped(stmt) && ';' !in stmt
    ensures Terminate(tag + "\n" + stmt) == tag + "\n" + (stmt + ";")
  {
    TagLineFacts(tag, stmt);
    TerminateWhole(tag + "\n" + stmt);
    assert tag + "\n" + stmt + ";" == tag + "\n" + (stmt + ";");
  }

  lemma TaggedOnceStage(tag: string, stmt: string)
    requires |tag| == 3 && Lower(tag) == "sql"
    requires stmt != [] && IsStripped(stmt) && ';' !in stmt
    ensures StripTag(StripFence(tag + "\n" + (tag + "\n" + stmt))) == tag + "\n" + stmt
  {
    var once := tag + "\n" + stmt;
    var text := tag + "\n" + once;
    TagLineFacts(tag, stmt);
    TagLineFacts(tag, once);
    assert text == tag + "\n" + [] + once;
    StripTagLine(tag, [], once);
    StripFencePlain(text);
  }

  /** A reply carrying the tag line twice. */
  const DoubledReply: string := "sql\nsql\nSELECT 1"

  /** A concrete witness that sanitising twice can differ from sanitising
      once: the first pass leaves the second tag line, the second pass
      removes it. */
  lemma NotIdempotent()
    ensures Sanitize(DoubledReply) == "sql\nSELECT 1;"
    ensures Sanitize(Sanitize(DoubledReply)) == "SELECT 1;"
  {
    DoubledShape();
    SelectOneFacts("SELECT 1");
    DoubleTagAt(DoubledReply, "sql\nSELECT 1;", "sql", "SELECT 1");
  }

  lemma DoubledShape()
    ensures DoubledReply == "sql" + "\n" + ("sql" + "\n" + "SELECT 1")
    ensures "sql\nSELECT 1;" == "sql" + "\n" + ("SELECT 1" + ";")
    ensures "SELECT 1;" == "SELECT 1" + ";"
  {
  }

  /** `DoubleTag` for a text given by its parts. */
  lemma DoubleTagAt(text: string, once: string, tag: string, stmt: string)
    requires |tag| == 3 && Lower(tag) == "sql"
    requires stmt != [] && IsStripped(stmt) && ';' !in stmt
    requires !StartsWith(stmt, Fence) && !Tagged(stmt)
    requires text == tag + "\n" + (tag + "\n" + stmt) && once == tag + "\n" + (stmt + ";")
    ensures Sanitize(text) == once && Sanitize(Sanitize(text)) == stmt + ";"
  {
    DoubleTag(tag, stmt);
  }

  lemma StripStatement(stmt: string, rest: string)
    requires stmt != [] && IsStripped(stmt)
    ensures Strip(stmt + ";" + rest) == stmt + ";" + StripRight(rest)
  {
    var r := StripRight(rest);
    var kept := stmt + ";" + r;
    var trail := rest[|r|..];
    assert rest == r + trail;
    assert stmt + ";" + rest == [] + kept + trail;
    assert kept[0] == stmt[0];
    assert IsStripped(kept);
    StripUnique([], kept, trail);
  }

  /** A prefix that is neither fenced nor tagged keeps the whole text so. */
  lemma PlainPrefix(stmt: string, rest: string)
    requires stmt != [] && ';' !in stmt
    requires !StartsWith(stmt, Fence) && !Tagged(stmt)
    ensures !StartsWith(stmt + ";" + rest, Fence)
    ensures !Tagged(stmt + ";" + rest)
  {
    var kept := stmt + ";" + rest;
    assert kept[..|stmt|] == stmt;
    if |stmt| >= 3 {
      assert kept[..3] == stmt[..3];
    } else {
      assert kept[|stmt|] == ';';
    }
    if |stmt| >= 4 {
      assert Lower(kept)[..4] == Lower(stmt)[..4];
    } else {
      assert Lower(kept)[|stmt|] == ';';
    }
  }

  lemma StripTagPlain(t: string)
    requires !Tagged(t)
    ensures StripTag(t) == t
  {
  }

  /** Only the first statement survives: everything from the first
      semicolon on is replaced by a single semicolon. */
  lemma FirstStatementOnly(stmt: string, rest: string)
    requires stmt != [] && IsStripped(stmt) && ';' !in stmt
    requires !StartsWith(stmt, Fence) && !Tagged(stmt)
    ensures Sanitize(stmt + ";" + rest) == stmt + ";"
  {
    var r := StripRight(rest);
    StripStatement(stmt, rest);
    PlainPrefix(stmt, r);
    StripFenceOfTrimmed(stmt + ";" + rest, stmt + ";" + r);
    StripTagPlain(stmt + ";" + r);
    TerminateAt(stmt, r);
  }
}
