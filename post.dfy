/**
 The post header of post.go: a title line, a timestamp line, a comma-separated tags
 line and an empty line, read with `ReadString('\n')` before the Markdown body.

 The reader is the remaining input as a string; `time.Parse` with the post time
 format and `strings.Title` are parameters (`parseTime` gives `None` where `time.Parse`
 fails). Instants are integers; `ZeroTime` stands for Go's zero `time.Time`.
 */
module Posts {
  import opened Wrappers
  import opened Text

  const ZeroTime: int := 0

  /** A header line: no newline inside. */
  predicate OneLine(s: string)
  {
    '\n' !in s
  }

  /**
   One `ReadString('\n')`: the text read without its newline, what is left, and
   whether a newline ended the text (when it did not, the reader reported `io.EOF`).
   */
  datatype Line = Line(body: string, rest: string, complete: bool)

  /**
   `ReadString('\n')`: everything up to the first newline, which is consumed too; at
   the end of the input without a newline, everything that is left, incomplete.
   */
  function ReadLine(input: string): (l: Line)
    ensures l.complete ==> OneLine(l.body) && input == l.body + "\n" + l.rest
    ensures !l.complete ==> OneLine(input) && l.body == input && l.rest == []
    decreases |input|
  {
    if |input| == 0 then Line([], [], false)
    else if input[0] == '\n' then
      assert input == [] + "\n" + input[1..];
      Line([], input[1..], true)
    else
      var l := ReadLine(input[1..]);
      assert input == [input[0]] + input[1..];
      Line([input[0]] + l.body, l.rest, l.complete)
  }

  /** A line without its newline is read back whole, and the rest is what follows it. */
  lemma {:induction false} ReadLineOf(line: string, rest: string)
    requires OneLine(line)
    ensures ReadLine(line + "\n" + rest) == Line(line, rest, true)
    decreases |line|
  {
    var input := line + "\n" + rest;
    if |line| > 0 {
      assert input[1..] == line[1..] + "\n" + rest;
      ReadLineOf(line[1..], rest);
      assert [line[0]] + line[1..] == line;
    } else {
      assert input[1..] == rest;
    }
  }

  datatype HeaderError =
    | EndOfInput                      // a header line was cut off by the end of the input
    | BadTimestamp                    // the second line is not a time in the post format
    | UnexpectedInput(line: string)   // the line after the tags is not empty

  /**
   What `readHeader` did: the fields it assigned (`None` for one it never reached), the
   error it returned, and the input it left unread.
   */
  datatype Header = Header(title: Option<string>, timestamp: Option<int>, tags: Option<seq<string>>,
                           err: Option<HeaderError>, rest: string)

  /** The tags of a tags line: none when it is blank, else its trimmed, title-cased pieces. */
  function TagsOf(line: string, titleCase: string -> string): (tags: seq<string>)
    ensures TrimSpace(line) == [] ==> tags == []
    ensures TrimSpace(line) != [] ==>
              && |tags| == Count(TrimSpace(line), ',') + 1
              && forall i :: 0 <= i < |tags| ==>
                   tags[i] == titleCase(TrimSpace(Split(TrimSpace(line), ',')[i]))
  {
    var trimmed := TrimSpace(line);
    if trimmed == [] then []
    else
      var pieces := Split(trimmed, ',');
      seq(|pieces|, i requires 0 <= i < |pieces| => titleCase(TrimSpace(pieces[i])))
  }

  /**
   `readHeader`: the title is the first line without its newline, trimmed; the
   timestamp is the trimmed second line parsed (the zero time when parsing fails); the
   tags come from the third line, newline included, trimmed; the fourth line must be the
   newline alone. A line cut off by the end of the input stops the reading with
   `EndOfInput`. The stages below read one line each.
   */
  function ParseHeader(input: string, parseTime: string -> Option<int>, titleCase: string -> string): (h: Header)
    ensures h.err.None? ==> h.title.Some? && h.timestamp.Some? && h.tags.Some?
    ensures h.title.None? ==> h.timestamp.None? && h.err == Some(EndOfInput)
    ensures h.err == Some(BadTimestamp) ==> h.title.Some? && h.timestamp == Some(ZeroTime) && h.tags.None?
  {
    var l := ReadLine(input);
    if !l.complete then Header(None, None, None, Some(EndOfInput), l.rest)
    else AfterTitle(TrimSpace(l.body), l.rest, parseTime, titleCase)
  }

  /** The rest of the header once the title is set: the timestamp line. */
  function AfterTitle(title: string, input: string, parseTime: string -> Option<int>,
                      titleCase: string -> string): (h: Header)
    ensures h.title == Some(title)
    ensures h.err.None? ==> h.timestamp.Some? && h.tags.Some?
    ensures h.err == Some(BadTimestamp) ==> h.timestamp == Some(ZeroTime) && h.tags.None?
  {
    var l := ReadLine(input);
    if !l.complete then Header(Some(title), None, None, Some(EndOfInput), l.rest)
    else
      match parseTime(TrimSpace(l.body))
      case None => Header(Some(title), Some(ZeroTime), None, Some(BadTimestamp), l.rest)
      case Some(instant) => AfterTimestamp(title, instant, l.rest, titleCase)
  }

  /** The rest of the header once the timestamp is set: the tags line. */
  function AfterTimestamp(title: string, instant: int, input: string, titleCase: string -> string): (h: Header)
    ensures h.title == Some(title) && h.timestamp == Some(instant)
    ensures h.err.None? ==> h.tags.Some?
    ensures h.err != Some(BadTimestamp)
  {
    var l := ReadLine(input);
    if !l.complete then Header(Some(title), Some(instant), None, Some(EndOfInput), l.rest)
    else AfterTags(title, instant, TagsOf(l.body + "\n", titleCase), l.rest)
  }

  /** The end of the header once the tags are set: the empty line. */
  function AfterTags(title: string, instant: int, tags: seq<string>, input: string): (h: Header)
    ensures h.title == Some(title) && h.timestamp == Some(instant) && h.tags == Some(tags)
    ensures h.err.None? <==> |input| > 0 && input[0] == '\n'
    ensures h.err.None? ==> input == "\n" + h.rest
    ensures h.err != Some(BadTimestamp)
  {
    var l := ReadLine(input);
    if !l.complete then Header(Some(title), Some(instant), Some(tags), Some(EndOfInput), l.rest)
    else if l.body != [] then Header(Some(title), Some(instant), Some(tags), Some(UnexpectedInput(l.body + "\n")), l.rest)
    else Header(Some(title), Some(instant), Some(tags), None, l.rest)
  }

  /** Each piece of the trimmed line, trimmed and title-cased in place, gives the tags of the line. */
  lemma TitleCasedPiecesAreTags(line: string, titleCase: string -> string, pieces: seq<string>, tags: seq<string>)
    requires pieces == if TrimSpace(line) == [] then [] else Split(TrimSpace(line), ',')
    requires |tags| == |pieces|
    requires forall k :: 0 <= k < |tags| ==> tags[k] == titleCase(TrimSpace(pieces[k]))
    ensures tags == TagsOf(line, titleCase)
  {
  }

  /** `input` is the three header lines, each ended by a newline, then an empty line, then `rest`. */
  predicate HeaderLines(input: string, title: string, time: string, tags: string, rest: string)
  {
    && OneLine(title) && OneLine(time) && OneLine(tags)
    && input == title + "\n" + (time + "\n" + (tags + "\n" + ("\n" + rest)))
  }

  /**
   A well-formed header is read back: the title and tags lines come out trimmed, the
   parsed time is the timestamp, no error is reported and the body is left unread.
   */
  lemma HeaderRoundTrip(input: string, title: string, time: string, tags: string, body: string, instant: int,
                        parseTime: string -> Option<int>, titleCase: string -> string)
    requires HeaderLines(input, title, time, tags, body)
    requires parseTime(TrimSpace(time)) == Some(instant)
    ensures ParseHeader(input, parseTime, titleCase)
            == Header(Some(TrimSpace(title)), Some(instant), Some(TagsOf(tags, titleCase)), None, body)
  {
    ReadLineOf(title, time + "\n" + (tags + "\n" + ("\n" + body)));
    ReadLineOf(time, tags + "\n" + ("\n" + body));
    ReadLineOf(tags, "\n" + body);
    TrimSpaceAppendSpace(tags, '\n');
    ReadLineOf([], body);
    assert [] + "\n" + body == "\n" + body;
  }

  /** Only a well-formed header is read without error, and then `rest` is what follows it. */
  lemma HeaderShape(input: string, parseTime: string -> Option<int>, titleCase: string -> string)
    requires ParseHeader(input, parseTime, titleCase).err == None
    ensures exists title, time, tags :: HeaderLines(input, title, time, tags, ParseHeader(input, parseTime, titleCase).rest)
  {
    var l1 := ReadLine(input);
    var h := AfterTitle(TrimSpace(l1.body), l1.rest, parseTime, titleCase);
    var time, tags := TimestampLineShape(TrimSpace(l1.body), l1.rest, parseTime, titleCase);
    var title := l1.body;
    assert HeaderLines(input, title, time, tags, h.rest);
  }

  /** What `AfterTitle` reads without error: a timestamp line, a tags line and the empty line. */
  lemma TimestampLineShape(title: string, input: string, parseTime: string -> Option<int>, titleCase: string -> string)
    returns (time: string, tags: string)
    requires AfterTitle(title, input, parseTime, titleCase).err == None
    ensures OneLine(time) && OneLine(tags)
    ensures input == time + "\n" + (tags + "\n" + ("\n" + AfterTitle(title, input, parseTime, titleCase).rest))
  {
    var l := ReadLine(input);
    var instant := parseTime(TrimSpace(l.body)).value;
    time := l.body;
    tags := TagsLineShape(title, instant, l.rest, titleCase);
  }

  /** What `AfterTimestamp` reads without error: a tags line and the empty line. */
  lemma TagsLineShape(title: string, instant: int, input: string, titleCase: string -> string) returns (tags: string)
    requires AfterTimestamp(title, instant, input, titleCase).err == None
    ensures OneLine(tags)
    ensures input == tags + "\n" + ("\n" + AfterTimestamp(title, instant, input, titleCase).rest)
  {
    var l := ReadLine(input);
    tags := l.body;
  }

  /** A header line that the end of the input cuts off stops the reading before the title is set. */
  lemma NoNewlineNoTitle(input: string, parseTime: string -> Option<int>, titleCase: string -> string)
    requires OneLine(input)
    ensures ParseHeader(input, parseTime, titleCase) == Header(None, None, None, Some(EndOfInput), [])
  {
  }

  /**
   A timestamp that does not parse is an error, yet the title is set and the timestamp
   becomes the zero time; the tags line is not read.
   */
  lemma BadTimestampKeepsTitle(title: string, time: string, rest: string,
                               parseTime: string -> Option<int>, titleCase: string -> string)
    requires OneLine(title) && OneLine(time)
    requires parseTime(TrimSpace(time)) == None
    ensures ParseHeader(title + "\n" + time + "\n" + rest, parseTime, titleCase)
            == Header(Some(TrimSpace(title)), Some(ZeroTime), None, Some(BadTimestamp), rest)
  {
    assert title + "\n" + time + "\n" + rest == title + "\n" + (time + "\n" + rest);
    ReadLineOf(title, time + "\n" + rest);
    ReadLineOf(time, rest);
  }

  /** A fourth line with anything before its newline is reported, with the line, after the tags are set. */
  lemma FourthLineMustBeEmpty(title: string, time: string, tags: string, extra: string, rest: string,
                              parseTime: string -> Option<int>, titleCase: string -> string)
    requires OneLine(title) && OneLine(time) && OneLine(tags) && OneLine(extra) && extra != []
    requires parseTime(TrimSpace(time)).Some?
    ensures var h := ParseHeader(title + "\n" + time + "\n" + tags + "\n" + extra + "\n" + rest, parseTime, titleCase);
            && h.err == Some(UnexpectedInput(extra + "\n"))
            && h.tags == Some(TagsOf(tags, titleCase))
            && h.rest == rest
  {
    var rest3 := extra + "\n" + rest;
    var rest2 := tags + "\n" + rest3;
    var rest1 := time + "\n" + rest2;
    assert title + "\n" + time + "\n" + tags + "\n" + extra + "\n" + rest == title + "\n" + rest1;
    ReadLineOf(title, rest1);
    ReadLineOf(time, rest2);
    ReadLineOf(tags, rest3);
    TrimSpaceAppendSpace(tags, '\n');
    ReadLineOf(extra, rest);
  }

  /** A post as `NewPost` fills it in; `content` is `None` where the Go post has a nil `Content`. */
  class Post {
    var sourcePath: string
    var title: string
    var timestamp: int
    var tags: seq<string>
    var content: Option<string>

    /** `&Post{}` with its `SourcePath` set. */
    constructor (sourcePath: string)
      ensures this.sourcePath == sourcePath
      ensures title == [] && timestamp == ZeroTime && tags == [] && content == None
    {
      this.sourcePath := sourcePath;
      title := [];
      timestamp := ZeroTime;
      tags := [];
      content := None;
    }

    /**
     `readHeader`: reads the header off `input`, returning the error, if any, and the
     unread input. Each field is assigned as far as the reading got, as `ParseHeader` says.
     */
    method ReadHeader(input: string, parseTime: string -> Option<int>, titleCase: string -> string)
      returns (err: Option<HeaderError>, rest: string)
      modifies this
      ensures var h := ParseHeader(input, parseTime, titleCase);
              && err == h.err && rest == h.rest
              && title == (if h.title.Some? then h.title.value else old(title))
              && timestamp == (if h.timestamp.Some? then h.timestamp.value else old(timestamp))
              && tags == (if h.tags.Some? then h.tags.value else old(tags))
      ensures sourcePath == old(sourcePath) && content == old(content)
    {
      var line := ReadLine(input);
      if !line.complete {
        return Some(EndOfInput), line.rest;
      }
      title := TrimSpace(line.body);
      ghost var h := ParseHeader(input, parseTime, titleCase);
      assert h == AfterTitle(title, line.rest, parseTime, titleCase);

      line := ReadLine(line.rest);
      if !line.complete {
        return Some(EndOfInput), line.rest;
      }
      var parsed := parseTime(TrimSpace(line.body));
      if parsed.None? {
        timestamp := ZeroTime;
        return Some(BadTimestamp), line.rest;
      }
      timestamp := parsed.value;
      assert h == AfterTimestamp(title, timestamp, line.rest, titleCase);

      line := ReadLine(line.rest);
      if !line.complete {
        return Some(EndOfInput), line.rest;
      }
      var trimmed := TrimSpace(line.body + "\n");
      var pieces := if trimmed == [] then [] else Split(trimmed, ',');
      tags := pieces;
      ghost var before := (title, timestamp);
      var i := 0;
      while i < |tags|
        invariant 0 <= i <= |tags| == |pieces|
        invariant forall k :: 0 <= k < i ==> tags[k] == titleCase(TrimSpace(pieces[k]))
        invariant forall k :: i <= k < |tags| ==> tags[k] == pieces[k]
        invariant title == before.0 && timestamp == before.1
        invariant sourcePath == old(sourcePath) && content == old(content)
      {
        tags := tags[i := titleCase(TrimSpace(tags[i]))];
        i := i + 1;
      }
      TitleCasedPiecesAreTags(line.body + "\n", titleCase, pieces, tags);
      assert h == AfterTags(title, timestamp, tags, line.rest);

      line := ReadLine(line.rest);
      if !line.complete {
        return Some(EndOfInput), line.rest;
      }
      if line.body != [] {
        return Some(UnexpectedInput(line.body + "\n")), line.rest;
      }
      return None, line.rest;
    }
  }

  datatype PostError = OpenFailed | HeaderFailed(reason: HeaderError)

  /**
   `NewPost`: `file` is the content of the post file, or `None` when it cannot be opened.
   A header error comes back with the partly filled post; the body is kept only when
   `readContent` asks for it and the header was read without error.
   */
  method NewPost(filePath: string, file: Option<string>, readContent: bool,
                 parseTime: string -> Option<int>, titleCase: string -> string)
    returns (p: Post?, err: Option<PostError>)
    ensures file.None? ==> p == null && err == Some(OpenFailed)
    ensures file.Some? ==>
              var h := ParseHeader(file.value, parseTime, titleCase);
              && p != null && fresh(p)
              && p.sourcePath == filePath
              && p.title == (if h.title.Some? then h.title.value else [])
              && p.timestamp == (if h.timestamp.Some? then h.timestamp.value else ZeroTime)
              && p.tags == (if h.tags.Some? then h.tags.value else [])
              && p.content == (if readContent && h.err.None? then Some(h.rest) else None)
              && err == (if h.err.Some? then Some(HeaderFailed(h.err.value)) else None)
  {
    if file.None? {
      return null, Some(OpenFailed);
    }
    p := new Post(filePath);
    var headerErr, rest := p.ReadHeader(file.value, parseTime, titleCase);
    if headerErr.Some? {
      return p, Some(HeaderFailed(headerErr.value));
    }
    if readContent {
      p.content := Some(rest);
    }
    return p, None;
  }

  /** `PostList.Less`: post `i` was published strictly before post `j`. */
  predicate Less(posts: seq<Post>, i: int, j: int)
    requires 0 <= i < |posts| && 0 <= j < |posts|
    reads posts[i], posts[j]
  {
    posts[i].timestamp < posts[j].timestamp
  }

  /** What `sort.Sort` leaves behind: no post is `Less` than a post before it. */
  predicate SortedByLess(posts: seq<Post>)
    reads posts
  {
    forall i, j :: 0 <= i < j < |posts| ==> !Less(posts, j, i)
  }

  /**
   A `PostList` sorted by `Less` lists the posts oldest first: a list is sorted exactly
   when the timestamps never decrease along it, so the first post is the oldest and
   the last the newest. Posts with equal timestamps may come in either order.
   */
  lemma SortedByLessIsOldestFirst(posts: seq<Post>)
    ensures SortedByLess(posts) <==> forall i, j :: 0 <= i <= j < |posts| ==> posts[i].timestamp <= posts[j].timestamp
    ensures SortedByLess(posts) && |posts| > 0 ==>
              forall k :: 0 <= k < |posts| ==> posts[0].timestamp <= posts[k].timestamp <= posts[|posts| - 1].timestamp
  {
    if SortedByLess(posts) {
      forall i, j | 0 <= i < j < |posts|
        ensures posts[i].timestamp <= posts[j].timestamp
      {
        assert !Less(posts, j, i);
      }
    }
  }
}
