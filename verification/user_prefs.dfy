/**
 * UserPrefs: the user's GUI settings and the path of the data file, two mutable
 * fields overwritten by their setters and by resetData. The setters refuse null
 * (Java throws NullPointerException); here a null argument is None and the refusal
 * is a Failure that leaves the object as it was.
 */
module Prefs {
  import opened Wrappers

  /** GuiSettings is not part of this model: an opaque value whose default is DEFAULT_GUI_SETTINGS. */
  datatype GuiSettings = GuiSettings(settings: seq<int>)

  /** The settings `new GuiSettings()` produces. */
  const DEFAULT_GUI_SETTINGS: GuiSettings := GuiSettings([])

  /** A java.nio.file.Path, kept as its name elements. */
  datatype Path = Path(elements: seq<string>)

  /** Paths.get("data", "algobase.json"). */
  const DEFAULT_ALGOBASE_FILE_PATH: Path := Path(["data", "algobase.json"])

  datatype NullPointer = NullPointer

  class UserPrefs {
    var guiSettings: GuiSettings
    var algoBaseFilePath: Path

    /** new UserPrefs(): the default settings and data/algobase.json. */
    constructor ()
      ensures guiSettings == DEFAULT_GUI_SETTINGS
      ensures algoBaseFilePath == DEFAULT_ALGOBASE_FILE_PATH
    {
      guiSettings := DEFAULT_GUI_SETTINGS;
      algoBaseFilePath := DEFAULT_ALGOBASE_FILE_PATH;
    }

    /** new UserPrefs(userPrefs): the defaults, then resetData(userPrefs). */
    constructor Copy(userPrefs: UserPrefs)
      ensures Equals(userPrefs)
      ensures userPrefs.guiSettings == old(userPrefs.guiSettings)
      ensures userPrefs.algoBaseFilePath == old(userPrefs.algoBaseFilePath)
    {
      guiSettings := userPrefs.guiSettings;
      algoBaseFilePath := userPrefs.algoBaseFilePath;
    }

    /** resetData: both fields become those of newUserPrefs; null is refused. */
    method ResetData(newUserPrefs: UserPrefs?) returns (r: Result<(), NullPointer>)
      modifies this
      ensures r.Success? <==> newUserPrefs != null
      ensures newUserPrefs != null ==> Equals(newUserPrefs)
      ensures newUserPrefs != null ==>
        guiSettings == old(newUserPrefs.guiSettings) && algoBaseFilePath == old(newUserPrefs.algoBaseFilePath)
      ensures newUserPrefs == null ==> unchanged(this)
    {
      if newUserPrefs == null {
        return Failure(NullPointer);
      }
      var gui := newUserPrefs.guiSettings;
      var path := newUserPrefs.algoBaseFilePath;
      var ok := SetGuiSettings(Some(gui));
      ok := SetAlgoBaseFilePath(Some(path));
      r := Success(());
    }

    /** setGuiSettings: overwrites the GUI settings and nothing else; null is refused. */
    method SetGuiSettings(settings: Option<GuiSettings>) returns (r: Result<(), NullPointer>)
      modifies this
      ensures r.Success? <==> settings.Some?
      ensures settings.Some? ==> guiSettings == settings.value
      ensures settings.None? ==> guiSettings == old(guiSettings)
      ensures algoBaseFilePath == old(algoBaseFilePath)
    {
      match settings
      case None =>
        r := Failure(NullPointer);
      case Some(s) =>
        guiSettings := s;
        r := Success(());
    }

    /** setAlgoBaseFilePath: overwrites the data file path and nothing else; null is refused. */
    method SetAlgoBaseFilePath(path: Option<Path>) returns (r: Result<(), NullPointer>)
      modifies this
      ensures r.Success? <==> path.Some?
      ensures path.Some? ==> algoBaseFilePath == path.value
      ensures path.None? ==> algoBaseFilePath == old(algoBaseFilePath)
      ensures guiSettings == old(guiSettings)
    {
      match path
      case None =>
        r := Failure(NullPointer);
      case Some(p) =>
        algoBaseFilePath := p;
        r := Success(());
    }

    /** equals: another UserPrefs with the same two fields. */
    predicate Equals(other: UserPrefs?)
      reads this, other
    {
      other != null && guiSettings == other.guiSettings && algoBaseFilePath == other.algoBaseFilePath
    }
  }

  /** equals is an equivalence on UserPrefs objects. */
  lemma EqualsIsEquivalence(a: UserPrefs, b: UserPrefs, c: UserPrefs)
    ensures a.Equals(a)
    ensures a.Equals(b) ==> b.Equals(a)
    ensures a.Equals(b) && b.Equals(c) ==> a.Equals(c)
  {
  }

  /** A client: copying, then changing the copy, leaves the original as it was. */
  method CopyIsIndependent(original: UserPrefs, settings: GuiSettings) returns (copy: UserPrefs)
    ensures fresh(copy)
    ensures copy.guiSettings == settings && copy.algoBaseFilePath == original.algoBaseFilePath
    ensures original.guiSettings == old(original.guiSettings)
  {
    copy := new UserPrefs.Copy(original);
    var ok := copy.SetGuiSettings(Some(settings));
  }
}
