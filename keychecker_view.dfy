/** The CD-key checker's window (keychecker.py with the cleanup of widgets/tool_frame.py): the
    keys are the non-empty lines of the text box, an empty box shows a message instead of
    starting, and the Start/Stop button starts a scrape only when none is running, asking the
    running one to stop otherwise. Widgets, dialogs and the watcher's polling are left out;
    the end of the scrape thread and the watcher's reset are separate steps. */
module KeycheckerView {
  import opened Text
  import Keychecker

  /** `[key.replace('\n', '') for key in text.split('\n') if key]`: the same comprehension as
      the scraper's key normalisation, applied to the lines of the text box. */
  function TextBoxKeys(text: string): seq<string>
  {
    Keychecker.NormaliseKeys(Split(text, '\n'))
  }

  /** The non-empty lines, in order: an independent statement of which lines are keys. */
  function NonEmptyLines(lines: seq<string>): seq<string>
  {
    if |lines| == 0 then []
    else
      var rest := NonEmptyLines(lines[..|lines| - 1]);
      if lines[|lines| - 1] == "" then rest else rest + [lines[|lines| - 1]]
  }

  lemma {:induction false} NormaliseLines(lines: seq<string>)
    requires forall k :: 0 <= k < |lines| ==> '\n' !in lines[k]
    ensures Keychecker.NormaliseKeys(lines) == NonEmptyLines(lines)
  {
    if |lines| > 0 {
      NormaliseLines(lines[..|lines| - 1]);
      RemoveCharAbsent(lines[|lines| - 1], '\n');
    }
  }

  /** The keys are exactly the non-empty lines of the box, in order; none is empty and none
      holds a newline. */
  lemma TextBoxKeysAreLines(text: string)
    ensures TextBoxKeys(text) == NonEmptyLines(Split(text, '\n'))
    ensures forall k :: 0 <= k < |TextBoxKeys(text)| ==>
              TextBoxKeys(text)[k] != "" && '\n' !in TextBoxKeys(text)[k]
  {
    NormaliseLines(Split(text, '\n'));
    NonEmptyLinesKept(Split(text, '\n'));
  }

  lemma {:induction false} NonEmptyLinesKept(lines: seq<string>)
    ensures forall k :: 0 <= k < |NonEmptyLines(lines)| ==>
              NonEmptyLines(lines)[k] != "" && NonEmptyLines(lines)[k] in lines
  {
    if |lines| > 0 {
      NonEmptyLinesKept(lines[..|lines| - 1]);
    }
  }

  /** Keys typed one per line, with the newline the text widget adds at the end, come back as
      typed. */
  lemma TextBoxKeysRoundTrip(keys: seq<string>)
    requires forall k :: 0 <= k < |keys| ==> keys[k] != "" && '\n' !in keys[k]
    ensures TextBoxKeys(Join(keys, '\n') + "\n") == keys
  {
    if keys == [] {
      // The box holds only the widget's newline.
      NoKeysIffOnlyNewlines("\n");
      return;
    }
    SplitJoin(keys, '\n');
    SplitAppend(Join(keys, '\n'), '\n', "");
    assert Join(keys, '\n') + "\n" == Join(keys, '\n') + ['\n'] + "";
    var lines := keys + [""];
    NormaliseLines(lines);
    NonEmptyLinesOfKeys(keys);
  }

  lemma {:induction false} NonEmptyLinesOfKeys(keys: seq<string>)
    requires forall k :: 0 <= k < |keys| ==> keys[k] != ""
    ensures NonEmptyLines(keys + [""]) == keys
    ensures NonEmptyLines(keys) == keys
  {
    assert (keys + [""])[..|keys|] == keys;
    if |keys| > 0 {
      NonEmptyLinesOfKeys(keys[..|keys| - 1]);
      assert keys[..|keys| - 1] + [keys[|keys| - 1]] == keys;
    }
  }

  lemma {:induction false} JoinOfEmpties(parts: seq<string>, sep: char)
    requires forall k :: 0 <= k < |parts| ==> parts[k] == ""
    ensures forall i :: 0 <= i < |Join(parts, sep)| ==> Join(parts, sep)[i] == sep
  {
    if |parts| > 1 {
      JoinOfEmpties(parts[..|parts| - 1], sep);
    }
  }

  lemma {:induction false} NonEmptyLinesNone(lines: seq<string>)
    ensures NonEmptyLines(lines) == [] <==> forall k :: 0 <= k < |lines| ==> lines[k] == ""
  {
    if |lines| > 0 {
      NonEmptyLinesNone(lines[..|lines| - 1]);
    }
  }

  /** The box yields no key exactly when it holds nothing but newlines. */
  lemma NoKeysIffOnlyNewlines(text: string)
    ensures TextBoxKeys(text) == [] <==> forall i :: 0 <= i < |text| ==> text[i] == '\n'
  {
    var lines := Split(text, '\n');
    TextBoxKeysAreLines(text);
    NonEmptyLinesNone(lines);
    if TextBoxKeys(text) == [] {
      JoinOfEmpties(lines, '\n');
      JoinSplit(text, '\n');
    } else {
      var k :| 0 <= k < |lines| && lines[k] != "";
      SplitPartChars(text, '\n', k);
      assert lines[k][0] in text && lines[k][0] != '\n';
    }
  }

  /** The scraper's own normalisation leaves the box's keys as they are. */
  lemma NormaliseTextBoxKeys(text: string)
    ensures Keychecker.NormaliseKeys(TextBoxKeys(text)) == TextBoxKeys(text)
  {
    var keys := TextBoxKeys(text);
    TextBoxKeysAreLines(text);
    NormaliseLines(keys);
    NonEmptyLinesOfKeys(keys);
  }

  /** What pressing Start/Stop did. */
  datatype Toggled = EmptyMessage | Started(keys: seq<string>) | StopRequested

  /** The window's state: whether a scrape thread is set, the shared stop flag and whether the
      Start/Stop button is enabled (cleanup disables every button, the watcher enables them
      all again); `threads` counts the scrape threads still alive. */
  class KeycheckerWindow {
    var running: bool
    var stop: bool
    var startEnabled: bool
    ghost var threads: nat

    /** At most one scrape thread is alive, and only while the window holds it. */
    ghost predicate Valid()
      reads this
    {
      threads <= 1 && (threads == 1 ==> running)
    }

    constructor ()
      ensures Valid() && !running && !stop && startEnabled && threads == 0
    {
      running := false;
      stop := false;
      startEnabled := true;
      threads := 0;
    }

    /** ToolFrame._cleanup: set the stop flag and disable every button. */
    method Cleanup()
      modifies this
      ensures stop && !startEnabled
      ensures running == old(running) && threads == old(threads)
    {
      stop := true;
      startEnabled := false;
    }

    /** `_toggle_scrape` on the text box's contents. */
    method ToggleScrape(text: string) returns (t: Toggled)
      requires Valid()
      modifies this
      ensures Valid()
      ensures TextBoxKeys(text) == [] ==>
                t == EmptyMessage && running == old(running) && stop == old(stop)
                && startEnabled == old(startEnabled) && threads == old(threads)
      ensures TextBoxKeys(text) != [] && !old(running) ==>
                t == Started(TextBoxKeys(text)) && running && !stop && threads == 1
                && startEnabled == old(startEnabled)
      ensures TextBoxKeys(text) != [] && old(running) ==>
                t == StopRequested && running && stop && !startEnabled && threads == old(threads)
    {
      var keys := TextBoxKeys(text);
      if |keys| > 0 {
        if !running {
          stop := false;
          running := true;
          threads := 1;
          t := Started(keys);
        } else {
          Cleanup();
          t := StopRequested;
        }
      } else {
        t := EmptyMessage;
      }
    }

    /** The scrape thread returns. */
    method ThreadEnded()
      requires Valid() && threads == 1
      modifies this
      ensures Valid() && threads == 0
      ensures running == old(running) && stop == old(stop) && startEnabled == old(startEnabled)
    {
      threads := 0;
    }

    /** The watcher, once the thread is no longer alive: the window lets go of it and enables
        the buttons, so the next toggle may start a scrape. */
    method WatcherReset()
      requires Valid() && threads == 0
      modifies this
      ensures Valid() && !running && startEnabled
      ensures stop == old(stop) && threads == 0
    {
      running := false;
      startEnabled := true;
    }
  }
}
