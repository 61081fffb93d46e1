/**
 * FolderExtensions: mapping folders between a container and its host.
 * Inside the container the shared folder is c:\run\my; on the host it is
 * HostHelperFolder\Extensions\{container}\my. The host helper folder,
 * read from the configuration in the source, is a parameter here, and
 * folder paths are taken as full paths.
 */
module Folders {
  import opened Wrappers
  import opened Strings

  const InContainerRoot: string := "c:\\run\\my"

  /** Path.Combine onto a root that does not end in a separator, of a non-empty relative name. */
  lemma CombineUnrooted(a: string, b: string)
    requires |a| >= 1 && !IsSeparator(a[|a| - 1])
    requires b != [] && !IsRooted(b)
    ensures Combine(a, b) == a + "\\" + b
  {
  }

  /** A relative name combined onto a root stays under that root. */
  lemma CombineUnder(a: string, b: string)
    ensures !IsRooted(b) ==> StartsWith(Combine(a, b), a)
  {
    if b != [] && a != [] && !IsRooted(b) {
      StartsWithConcat(a, if IsSeparator(a[|a| - 1]) then b else "\\" + b);
      assert a + "\\" + b == a + ("\\" + b);
    }
  }

  /** FolderExtensions.GetSharedFolder: the container's folder on the host. */
  function SharedFolder(hostHelperFolder: string, containerName: string): (r: string)
    ensures |r| >= 2 && r[|r| - 2..] == "my"
  {
    var inner := Combine(Combine(hostHelperFolder, "Extensions"), containerName);
    assert !IsRooted("my");
    Combine(inner, "my")
  }

  /** With a plain helper folder and container name the shared folder is helper\Extensions\name\my. */
  lemma SharedFolderShape(hostHelperFolder: string, containerName: string)
    requires |hostHelperFolder| >= 1 && !IsSeparator(hostHelperFolder[|hostHelperFolder| - 1])
    requires |containerName| >= 1 && NoneOf(containerName, PathSeparators + {':'})
    ensures SharedFolder(hostHelperFolder, containerName) == hostHelperFolder + "\\" + "Extensions" + "\\" + containerName + "\\" + "my"
  {
    var ext := "Extensions";
    assert NoneOf(ext, PathSeparators + {':'});
    CombinePlain(hostHelperFolder, ext);
    var a := hostHelperFolder + "\\" + ext;
    CombinePlain(a, containerName);
    var b := a + "\\" + containerName;
    var my := "my";
    assert NoneOf(my, PathSeparators + {':'});
    CombinePlain(b, my);
  }

  // ---------------------------------------------------------------------
  // Container to host

  /** FolderExtensions.IsShareableWithHost: a textual prefix test, ignoring case. */
  predicate IsShareableWithHost(path: string)
  {
    StartsWithIgnoreCase(path, InContainerRoot)
  }

  /** FolderExtensions.TestShareableWithHost: NotSupportedException for a folder that is not shareable. */
  function TestShareableWithHost(path: string): (r: Option<Exception>)
    ensures r.None? <==> IsShareableWithHost(path)
    ensures r.Some? ==> r.value == NotSupportedException
  {
    if IsShareableWithHost(path) then None else Some(NotSupportedException)
  }

  /**
   * FolderExtensions.ToHostFolder: the text after "c:\run\my" and one more
   * character, combined onto the shared folder. The path "c:\run\my"
   * itself throws, since the cut lies past its end.
   */
  function ToHostFolder(path: string, hostHelperFolder: string, containerName: string): (r: Outcome<string>)
    ensures r.Ok? <==> IsShareableWithHost(path) && |path| > |InContainerRoot|
    ensures !IsShareableWithHost(path) ==> r == Fail(NotSupportedException)
    ensures IsShareableWithHost(path) && |path| == |InContainerRoot| ==> r == Fail(ArgumentOutOfRangeException)
    ensures r.Ok? && !IsRooted(path[|InContainerRoot| + 1..]) ==> StartsWith(r.value, SharedFolder(hostHelperFolder, containerName))
  {
    if TestShareableWithHost(path).Some? then Fail(TestShareableWithHost(path).value)
    else if |path| < |InContainerRoot| + 1 then Fail(ArgumentOutOfRangeException)
    else
      var rest := path[|InContainerRoot| + 1..];
      CombineUnder(SharedFolder(hostHelperFolder, containerName), rest);
      Ok(Combine(SharedFolder(hostHelperFolder, containerName), rest))
  }

  // ---------------------------------------------------------------------
  // Host to container

  /** FolderExtensions.IsShareableWithContainer: a textual prefix test against the shared folder, ignoring case. */
  predicate IsShareableWithContainer(path: string, hostHelperFolder: string, containerName: string)
  {
    StartsWithIgnoreCase(path, SharedFolder(hostHelperFolder, containerName))
  }

  /**
   * FolderExtensions.ToContainerFolder: the text after the shared folder
   * and one more character, combined onto "c:\run\my".
   */
  function ToContainerFolder(path: string, hostHelperFolder: string, containerName: string): (r: Outcome<string>)
    ensures var shared := SharedFolder(hostHelperFolder, containerName);
      && (r.Ok? <==> IsShareableWithContainer(path, hostHelperFolder, containerName) && |path| > |shared|)
      && (!IsShareableWithContainer(path, hostHelperFolder, containerName) ==> r == Fail(NotSupportedException))
      && (r.Ok? && !IsRooted(path[|shared| + 1..]) ==> StartsWith(r.value, InContainerRoot))
  {
    var shared := SharedFolder(hostHelperFolder, containerName);
    if !IsShareableWithContainer(path, hostHelperFolder, containerName) then Fail(NotSupportedException)
    else if |path| < |shared| + 1 then Fail(ArgumentOutOfRangeException)
    else
      CombineUnder(InContainerRoot, path[|shared| + 1..]);
      Ok(Combine(InContainerRoot, path[|shared| + 1..]))
  }

  /** Mapping a root onto the other side throws: the cut lies past its end. */
  lemma RootsDoNotMap(hostHelperFolder: string, containerName: string)
    ensures ToHostFolder(InContainerRoot, hostHelperFolder, containerName) == Fail(ArgumentOutOfRangeException)
    ensures ToContainerFolder(SharedFolder(hostHelperFolder, containerName), hostHelperFolder, containerName)
      == Fail(ArgumentOutOfRangeException)
  {
    var shared := SharedFolder(hostHelperFolder, containerName);
    assert Lower(InContainerRoot)[..|Lower(InContainerRoot)|] == Lower(InContainerRoot);
    assert Lower(shared)[..|Lower(shared)|] == Lower(shared);
  }

  /** A case-insensitive prefix of the form prefix + rest. */
  lemma StartsWithIgnoreCaseConcat(prefix: string, rest: string, p: string)
    requires EqualsIgnoreCase(prefix, p)
    ensures StartsWithIgnoreCase(prefix + rest, p)
  {
    LowerConcat(prefix, rest);
    StartsWithConcat(Lower(prefix), Lower(rest));
  }

  /** A folder below "c:\run\my", in any case, goes to the same relative name under the shared folder. */
  lemma ToHostBelowRoot(prefix: string, rest: string, hostHelperFolder: string, containerName: string)
    requires EqualsIgnoreCase(prefix, InContainerRoot + "\\")
    requires rest != [] && !IsRooted(rest)
    ensures ToHostFolder(prefix + rest, hostHelperFolder, containerName)
      == Ok(SharedFolder(hostHelperFolder, containerName) + "\\" + rest)
  {
    var root := InContainerRoot;
    StartsWithIgnoreCaseConcat(prefix, rest, root + "\\");
    StartsWithIgnoreCasePrefix(prefix + rest, root, "\\");
    assert |prefix| == |Lower(prefix)| == |root| + 1;
    assert (prefix + rest)[|root| + 1..] == rest;
    CombineUnrooted(SharedFolder(hostHelperFolder, containerName), rest);
  }

  /** A folder below the shared folder goes to the same relative name under "c:\run\my". */
  lemma ToContainerBelowShared(rest: string, hostHelperFolder: string, containerName: string)
    requires rest != [] && !IsRooted(rest)
    ensures ToContainerFolder(SharedFolder(hostHelperFolder, containerName) + "\\" + rest, hostHelperFolder, containerName)
      == Ok(InContainerRoot + "\\" + rest)
  {
    var shared := SharedFolder(hostHelperFolder, containerName);
    StartsWithIgnoreCaseConcat(shared, "\\" + rest, shared);
    assert shared + "\\" + rest == shared + ("\\" + rest);
    assert (shared + "\\" + rest)[|shared| + 1..] == rest;
    CombineUnrooted(InContainerRoot, rest);
  }

  /**
   * A folder below "c:\run\my" goes to the host and back to the same
   * relative name under "c:\run\my", whatever the case of the prefix.
   */
  lemma HostRoundTrip(prefix: string, rest: string, hostHelperFolder: string, containerName: string)
    requires EqualsIgnoreCase(prefix, InContainerRoot + "\\")
    requires rest != [] && !IsRooted(rest)
    ensures ToHostFolder(prefix + rest, hostHelperFolder, containerName)
      == Ok(SharedFolder(hostHelperFolder, containerName) + "\\" + rest)
    ensures ToContainerFolder(SharedFolder(hostHelperFolder, containerName) + "\\" + rest, hostHelperFolder, containerName)
      == Ok(InContainerRoot + "\\" + rest)
  {
    ToHostBelowRoot(prefix, rest, hostHelperFolder, containerName);
    ToContainerBelowShared(rest, hostHelperFolder, containerName);
  }

  // ---------------------------------------------------------------------
  // The textual prefix test and its correction

  /** As written, "c:\run\mydata" counts as below "c:\run\my" and loses its 'd' on the way to the host. */
  lemma SiblingFolderMisMapped(hostHelperFolder: string, containerName: string)
    ensures ToHostFolder("c:\\run\\mydata", hostHelperFolder, containerName)
      == Ok(Combine(SharedFolder(hostHelperFolder, containerName), "ata"))
  {
    var path := "c:\\run\\mydata";
    var root := InContainerRoot;
    assert path == root + "data";
    assert IsShareableWithHost(path) by {
      StartsWithIgnoreCaseConcat(root, "data", root);
    }
    assert path[|root| + 1..] == "ata";
  }

  /** Shareable with the host as evidently intended: "c:\run\my" followed by a separator. */
  predicate IsBelowContainerRoot(path: string)
  {
    StartsWithIgnoreCase(path, InContainerRoot + "\\")
  }

  /**
   * ToHostFolder with the prefix test on whole path components: an
   * accepted path is "c:\run\my\" (in any case) followed by the relative
   * name that goes onto the shared folder.
   */
  function ToHostFolderChecked(path: string, hostHelperFolder: string, containerName: string): (r: Outcome<string>)
    ensures r.Ok? <==> IsBelowContainerRoot(path)
    ensures r.Fail? ==> r.error == NotSupportedException
    ensures r.Ok? ==> (EqualsIgnoreCase(path, InContainerRoot + "\\" + path[|InContainerRoot| + 1..])
      && r.value == Combine(SharedFolder(hostHelperFolder, containerName), path[|InContainerRoot| + 1..]))
  {
    if !IsBelowContainerRoot(path) then Fail(NotSupportedException)
    else
      var root := InContainerRoot + "\\";
      assert |root| == |InContainerRoot| + 1;
      StartsWithIgnoreCaseSplit(path, root);
      assert EqualsIgnoreCase(path, InContainerRoot + "\\" + path[|InContainerRoot| + 1..]);
      Ok(Combine(SharedFolder(hostHelperFolder, containerName), path[|InContainerRoot| + 1..]))
  }

  /** The corrected test turns the sibling folder away. */
  lemma SiblingFolderRejected(hostHelperFolder: string, containerName: string)
    ensures ToHostFolderChecked("c:\\run\\mydata", hostHelperFolder, containerName) == Fail(NotSupportedException)
  {
    var path := "c:\\run\\mydata";
    var root := InContainerRoot;
    assert Lower(path)[|root|] != Lower(root + "\\")[|root|];
  }

  /** Below "c:\run\my", the corrected mapping agrees with the original one. */
  lemma CheckedAgreesBelowRoot(path: string, hostHelperFolder: string, containerName: string)
    requires IsBelowContainerRoot(path)
    ensures ToHostFolderChecked(path, hostHelperFolder, containerName) == ToHostFolder(path, hostHelperFolder, containerName)
  {
    StartsWithIgnoreCasePrefix(path, InContainerRoot, "\\");
  }
}
