/** Reading the collector endpoint from `config.ini` (Program.cs, lines 29-31
    and 160-188). The outcome of the file system calls is an input: the file
    was missing (and writing the default file did or did not succeed), could
    not be read, or was read as a list of lines. */
module Configuration {
  import opened Wrappers
  import Text
  import opened LastWrite

  const DEFAULT_ENDPOINT := "http://127.0.0.1:5000/api/monitor"
  const SERVER_URL_KEY := "ServerUrl="
  /** The content of the file written when there is none (line 167),
      "ServerUrl=http://127.0.0.1:5000/api/monitor". */
  const DEFAULT_CONFIG := SERVER_URL_KEY + DEFAULT_ENDPOINT

  /** What `File.Exists`, `File.WriteAllText` and `File.ReadAllLines` gave. */
  datatype ConfigFile = Missing(written: bool) | Unreadable | Present(lines: seq<string>)

  /** Line 176: the trimmed line starts with "ServerUrl=", so the line holds
      an '=' and `Split('=')` gives it a second field. */
  predicate IsServerUrlLine(line: string): (b: bool)
    ensures b ==> '=' in line
  {
    var t := Text.Trim(line);
    if Text.StartsWith(t, SERVER_URL_KEY) then
      assert '=' in line by {
        var a :| Text.IsFactorAt(line, t, a);
        assert t[9] == SERVER_URL_KEY[9] == '=';
        assert line[a + 9] == t[9];
      }
      true
    else false
  }

  /** Line 178: `line.Split('=')[1].Trim()`, the trimmed text between the
      first and the second '=' of the line, or the end of the line:
      "ServerUrl=http://h/a=b" gives "http://h/a". */
  function UrlOf(line: string): (url: string)
    requires IsServerUrlLine(line)
    ensures exists i, j :: Text.BoundsSecondField(line, '=', i, j) && url == Text.Trim(line[i + 1..j])
  {
    Text.SecondFieldBetweenSeparators(line, '=');
    Text.Trim(Text.Split(line, '=')[1])
  }

  /** What one line writes into the endpoint (lines 176-180): a line whose
      trimmed text starts with "ServerUrl=" writes its URL, when that is not
      empty; any other line writes nothing. */
  function Setting(line: string): (r: Option<string>)
    ensures r.Some? ==> Text.StartsWith(Text.Trim(line), SERVER_URL_KEY) && r.value != ""
                        && exists i, j :: Text.BoundsSecondField(line, '=', i, j) && r.value == Text.Trim(line[i + 1..j])
    ensures r.None? ==> !Text.StartsWith(Text.Trim(line), SERVER_URL_KEY)
                        || exists i, j :: Text.BoundsSecondField(line, '=', i, j) && Text.Trim(line[i + 1..j]) == ""
  {
    if IsServerUrlLine(line) && UrlOf(line) != "" then Some(UrlOf(line)) else None
  }

  /** A "ServerUrl=" line written with a URL that holds no '=' and has no
      white space at its ends is read back as that URL. */
  lemma WrittenUrlIsReadBack(url: string)
    requires url != "" && '=' !in url
    requires !Text.IsWhiteSpace(url[0]) && !Text.IsWhiteSpace(url[|url| - 1])
    ensures Setting(SERVER_URL_KEY + url) == Some(url)
  {
    var line := SERVER_URL_KEY + url;
    assert Text.StartsWith(Text.Trim(line), SERVER_URL_KEY) by {
      Text.TrimOfTrimmed(line);
      assert line[..|SERVER_URL_KEY|] == SERVER_URL_KEY;
    }
    assert Text.Split(line, '=')[1] == url by {
      assert SERVER_URL_KEY == "ServerUrl" + ['='];
      assert line == "ServerUrl" + ['='] + url;
      Text.SplitTwoFields("ServerUrl", '=', url);
    }
    assert UrlOf(line) == url by {
      Text.TrimOfTrimmed(url);
    }
  }

  /** The reference value of the parse: the endpoint after the lines were
      read, starting from `current`. */
  function ConfiguredEndpoint(lines: seq<string>, current: string): string {
    Latest(lines, Setting, current)
  }

  /** The endpoint is kept when no line sets it; otherwise the last line that
      sets it wins, whatever came before; and it is never made empty. */
  lemma LastServerUrlWins(lines: seq<string>, current: string)
    ensures (forall i :: 0 <= i < |lines| ==> Setting(lines[i]).None?) ==> ConfiguredEndpoint(lines, current) == current
    ensures forall k :: IsLastWriter(lines, Setting, k) ==> ConfiguredEndpoint(lines, current) == UrlOf(lines[k])
    ensures current != "" ==> ConfiguredEndpoint(lines, current) != ""
  {
    LatestIsLastWrite(lines, Setting, current);
    forall k | IsLastWriter(lines, Setting, k)
      ensures ConfiguredEndpoint(lines, current) == UrlOf(lines[k])
    {
      LastWriterWins(lines, Setting, current, k);
    }
    if current != "" {
      LatestKeeps(lines, Setting, current, (u: string) => u != "");
    }
  }

  /** The endpoint after `LoadConfiguration` ran with the endpoint `current`. */
  function AfterLoad(file: ConfigFile, current: string): string {
    match file
    case Missing(written) => if written then DEFAULT_ENDPOINT else current
    case Unreadable => current
    case Present(lines) => ConfiguredEndpoint(lines, current)
  }

  /** At start-up, whatever the file holds, the endpoint is the default URL
      or the URL of one of its lines, and it is not empty. */
  lemma StartupEndpoint(file: ConfigFile)
    ensures AfterLoad(file, DEFAULT_ENDPOINT) != ""
    ensures AfterLoad(file, DEFAULT_ENDPOINT) == DEFAULT_ENDPOINT
            || (file.Present? && exists k :: 0 <= k < |file.lines| && Setting(file.lines[k]) == Some(AfterLoad(file, DEFAULT_ENDPOINT)))
  {
    if file.Present? {
      LatestIsLastWrite(file.lines, Setting, DEFAULT_ENDPOINT);
      LastServerUrlWins(file.lines, DEFAULT_ENDPOINT);
    }
  }

  /** The file written on a first run is read back on the next one as the
      default URL: both runs end with the same endpoint. */
  lemma DefaultConfigIsReadBack(current: string)
    ensures AfterLoad(Present([DEFAULT_CONFIG]), current) == DEFAULT_ENDPOINT
    ensures AfterLoad(Present([DEFAULT_CONFIG]), current) == AfterLoad(Missing(true), current)
  {
    assert '=' !in DEFAULT_ENDPOINT;
    WrittenUrlIsReadBack(DEFAULT_ENDPOINT);
  }

  /** The static state of the agent's `Program` class that the configuration
      changes: `SERVER_ENDPOINT`. */
  class Program {
    var serverEndpoint: string

    /** The static initialiser of line 30. */
    constructor ()
      ensures serverEndpoint == DEFAULT_ENDPOINT
    {
      serverEndpoint := DEFAULT_ENDPOINT;
    }

    /** `LoadConfiguration` (lines 160-188): a missing file is created with
        the default URL and the default is used, unless creating it failed;
        an unreadable file changes nothing; otherwise each "ServerUrl=" line
        with a non-empty URL replaces the endpoint, in order. */
    method LoadConfiguration(file: ConfigFile)
      modifies this
      ensures serverEndpoint == AfterLoad(file, old(serverEndpoint))
    {
      match file
      case Missing(written) =>
        if written {
          serverEndpoint := DEFAULT_ENDPOINT;
        }
      case Unreadable =>
      case Present(lines) =>
        var n := 0;
        while n < |lines|
          invariant 0 <= n <= |lines|
          invariant serverEndpoint == ConfiguredEndpoint(lines[..n], old(serverEndpoint))
        {
          var line := lines[n];
          LatestStep(lines, n, Setting, old(serverEndpoint));
          if Text.StartsWith(Text.Trim(line), SERVER_URL_KEY) {
            assert IsServerUrlLine(line);
            var url := Text.Trim(Text.Split(line, '=')[1]);
            if url != "" {
              serverEndpoint := url;
            }
          }
          n := n + 1;
        }
        assert lines[..n] == lines;
    }
  }
}
