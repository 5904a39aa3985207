/**
 * The icon chooser dialog: how a chosen icon file's path is turned into a
 * path relative to the icon directory, which files count as icons, and
 * when the dialog has something to hand back.
 */
module IconSelect {
  import opened Wrappers
  import opened JavaStrings

  const ICON_DIRECTORY: string := "tree-icons"

  function BackslashToSlash(c: char): char {
    if c == '\\' then '/' else c
  }

  /**
   * getRelativePath: the path from the first occurrence of the icon
   * directory on (the whole path when it does not occur), with every
   * backslash turned into a forward slash.
   */
  function GetRelativePath(path: string): (r: string)
    ensures Contains(path, ICON_DIRECTORY) ==>
      var k := IndexOf(path, ICON_DIRECTORY).value;
      && |r| == |path| - k
      && (forall i :: 0 <= i < |r| ==> r[i] == BackslashToSlash(path[k + i]))
    ensures !Contains(path, ICON_DIRECTORY) ==>
      |r| == |path| && forall i :: 0 <= i < |r| ==> r[i] == BackslashToSlash(path[i])
    ensures '\\' !in r
    ensures |r| <= |path|
    ensures !Contains(path, ICON_DIRECTORY) && '\\' !in path ==> r == path
  {
    var relative := if Contains(path, ICON_DIRECTORY) then path[IndexOf(path, ICON_DIRECTORY).value..] else path;
    if '\\' in relative then Replace(relative, '\\', '/') else relative
  }

  /** Turning backslashes into slashes creates no new occurrence of the icon directory. */
  lemma OccurrenceComesFromPath(p: string, r: string, j: int)
    requires |r| == |p| && forall i :: 0 <= i < |r| ==> r[i] == BackslashToSlash(p[i])
    requires OccursAt(r, ICON_DIRECTORY, j)
    ensures OccursAt(p, ICON_DIRECTORY, j)
  {
    assert forall i :: 0 <= i < |ICON_DIRECTORY| ==> ICON_DIRECTORY[i] != '/' && ICON_DIRECTORY[i] != '\\';
    forall i | 0 <= i < |ICON_DIRECTORY|
      ensures p[j + i] == ICON_DIRECTORY[i]
    {
      assert r[j..j + |ICON_DIRECTORY|][i] == ICON_DIRECTORY[i];
    }
  }

  lemma OccurrencesComeFromPath(p: string, r: string)
    requires |r| == |p| && forall i :: 0 <= i < |r| ==> r[i] == BackslashToSlash(p[i])
    ensures forall j :: OccursAt(r, ICON_DIRECTORY, j) ==> OccursAt(p, ICON_DIRECTORY, j)
  {
    forall j | OccursAt(r, ICON_DIRECTORY, j)
      ensures OccursAt(p, ICON_DIRECTORY, j)
    {
      OccurrenceComesFromPath(p, r, j);
    }
  }

  /** A relative path is its own relative path: normalising twice is normalising once. */
  lemma GetRelativePathIdempotent(path: string)
    ensures GetRelativePath(GetRelativePath(path)) == GetRelativePath(path)
  {
    var r := GetRelativePath(path);
    if Contains(path, ICON_DIRECTORY) {
      var k := IndexOf(path, ICON_DIRECTORY).value;
      assert forall i :: 0 <= i < |ICON_DIRECTORY| ==> ICON_DIRECTORY[i] != '\\';
      assert r[..|ICON_DIRECTORY|] == ICON_DIRECTORY by {
        forall i | 0 <= i < |ICON_DIRECTORY|
          ensures r[i] == ICON_DIRECTORY[i]
        {
          assert path[k..k + |ICON_DIRECTORY|][i] == ICON_DIRECTORY[i];
        }
      }
      assert OccursAt(r, ICON_DIRECTORY, 0);
      assert r[0..] == r;
    } else {
      OccurrencesComeFromPath(path, r);
    }
  }

  /** IconFileFilter.accept on the file's name: it ends in "gif" or "png", in any case. */
  predicate Accept(fileName: string): (r: bool)
    ensures r <==> |fileName| >= 3 && ToLowerCase(fileName[|fileName| - 3..]) in {"gif", "png"}
  {
    var name := ToLowerCase(fileName);
    assert |fileName| >= 3 ==> name[|name| - 3..] == ToLowerCase(fileName[|fileName| - 3..]);
    EndsWith(name, "gif") || EndsWith(name, "png")
  }

  lemma ToLowerCaseIdempotent(s: string)
    ensures ToLowerCase(ToLowerCase(s)) == ToLowerCase(s)
  {
  }

  /** The filter ignores case: a name and its lower-case form are accepted alike. */
  lemma AcceptIgnoresCase(fileName: string)
    ensures Accept(ToLowerCase(fileName)) == Accept(fileName)
  {
    ToLowerCaseIdempotent(fileName);
  }

  /** Only the last three characters decide; no dot is needed before them. */
  lemma AcceptLastThree(fileName: string)
    requires |fileName| >= 3
    ensures Accept(fileName) == Accept(fileName[|fileName| - 3..])
  {
    var n := |fileName|;
    var tail := fileName[n - 3..];
    assert ToLowerCase(fileName)[n - 3..] == ToLowerCase(tail);
    assert ToLowerCase(tail)[0..] == ToLowerCase(tail);
  }

  lemma AcceptedNames()
    ensures Accept("ICON.PNG") && Accept("folder.Gif") && Accept("logopng")
  {
    assert ToLowerCase("ICON.PNG") == "icon.png";
    assert ToLowerCase("folder.Gif") == "folder.gif";
    assert ToLowerCase("logopng") == "logopng";
  }

  lemma RejectedNames()
    ensures !Accept("icon.jpg") && !Accept("gi") && !Accept("icon.png.txt")
  {
    assert ToLowerCase("icon.jpg") == "icon.jpg";
    assert ToLowerCase("icon.png.txt") == "icon.png.txt";
  }

  /**
   * The part of the dialog's state that isSomethingSelected reads, and the
   * state of the "default icon" check box in the dialog.
   */
  datatype Selection = Selection(selectedPath: Option<string>, defaultIcon: bool, checkboxChecked: bool)

  /** The dialog as it opens: no icon chosen, the check box cleared. */
  const INITIAL: Selection := Selection(None, false, false)

  /** isSomethingSelected: the default icon was asked for, or an icon was chosen. */
  predicate IsSomethingSelected(s: Selection): (r: bool)
    ensures !r <==> s.(checkboxChecked := false) == INITIAL
  {
    s.defaultIcon || s.selectedPath.Some?
  }

  /** The table's selection listener: the chosen file's path, made relative. */
  function SelectIcon(s: Selection, path: string): (r: Selection)
    ensures IsSomethingSelected(r)
    ensures r.selectedPath.Some? && '\\' !in r.selectedPath.value
    ensures r.defaultIcon == s.defaultIcon && r.checkboxChecked == s.checkboxChecked
  {
    s.(selectedPath := Some(GetRelativePath(path)))
  }

  /**
   * The check box listener as written: a click toggles the box, and the
   * flag is set to whether the box is enabled, which it always is.
   */
  function ClickDefaultCheckboxAsWritten(s: Selection, enabled: bool): (r: Selection)
    ensures r.checkboxChecked == !s.checkboxChecked
    ensures r.defaultIcon == enabled
    ensures r.selectedPath == s.selectedPath
  {
    s.(checkboxChecked := !s.checkboxChecked, defaultIcon := enabled)
  }

  /** Checking and then clearing the box leaves the dialog reporting a selection. */
  lemma UncheckedDefaultStillSelectedAsWritten()
    ensures var s := ClickDefaultCheckboxAsWritten(ClickDefaultCheckboxAsWritten(INITIAL, true), true);
      !s.checkboxChecked && s.selectedPath.None? && IsSomethingSelected(s)
  {
  }

  /** The check box listener as intended: the flag follows the box. */
  function ClickDefaultCheckbox(s: Selection): (r: Selection)
    ensures r.checkboxChecked == !s.checkboxChecked
    ensures r.defaultIcon == r.checkboxChecked
    ensures r.selectedPath == s.selectedPath
  {
    s.(checkboxChecked := !s.checkboxChecked, defaultIcon := !s.checkboxChecked)
  }

  /** The events a user can cause in the dialog. */
  datatype Event = IconChosen(path: string) | DefaultCheckboxClicked

  function Apply(s: Selection, e: Event): Selection {
    match e
    case IconChosen(p) => SelectIcon(s, p)
    case DefaultCheckboxClicked => ClickDefaultCheckbox(s)
  }

  function Run(s: Selection, events: seq<Event>): Selection
    decreases |events|
  {
    if events == [] then s else Run(Apply(s, events[0]), events[1..])
  }

  /**
   * With the corrected listener, whatever the user does, the dialog reports
   * a selection exactly when the box is checked or an icon was chosen.
   */
  lemma {:induction false} RunKeepsFlagWithBox(s: Selection, events: seq<Event>)
    requires s.defaultIcon == s.checkboxChecked
    ensures Run(s, events).defaultIcon == Run(s, events).checkboxChecked
    ensures IsSomethingSelected(Run(s, events)) <==>
      Run(s, events).checkboxChecked || Run(s, events).selectedPath.Some?
    decreases |events|
  {
    if events != [] {
      RunKeepsFlagWithBox(Apply(s, events[0]), events[1..]);
    }
  }

  /** An icon once chosen stays chosen, so the dialog reports a selection from then on. */
  lemma {:induction false} ChosenIconPersists(s: Selection, events: seq<Event>)
    requires s.selectedPath.Some?
    ensures Run(s, events).selectedPath.Some? && IsSomethingSelected(Run(s, events))
    decreases |events|
  {
    if events != [] {
      ChosenIconPersists(Apply(s, events[0]), events[1..]);
    }
  }

  /** Nothing is selected when the dialog opens. */
  lemma InitiallyNothingSelected()
    ensures !IsSomethingSelected(INITIAL)
    ensures INITIAL.defaultIcon == INITIAL.checkboxChecked
  {
  }
}
