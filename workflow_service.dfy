/** The workflow state files: the registry of worktrees kept at the git root
    (`BaseWorkflowService`) and the marker each worktree keeps for itself
    (`WorktreeWorkflowService`). JSON text is left abstract: a codec encodes
    each state and decodes text back, failing like `JSON.parse`. */
module WorkflowService {
  import opened Wrappers
  import opened Paths
  import opened FileSystem
  import opened ZammDir

  const Initial := "INITIAL"

  /** One registered worktree. */
  datatype WorktreeInfo = WorktreeInfo(branch: string, path: string, state: string)

  /** The registry: worktrees by branch. */
  datatype BaseState = BaseState(worktrees: map<string, WorktreeInfo>)

  /** `JSON.stringify(_, null, 2)` and `JSON.parse` for the two state files. */
  datatype Json = Json(
    encodeBase: BaseState -> string,
    decodeBase: string -> Result<BaseState>,
    encodeCurrent: string -> string,
    decodeCurrent: string -> Result<string>)

  /** Parsing what was written gives back what was encoded. */
  ghost predicate RoundTrips(json: Json) {
    && (forall s :: json.decodeBase(json.encodeBase(s)) == Ok(s))
    && (forall st :: json.decodeCurrent(json.encodeCurrent(st)) == Ok(st))
  }

  function BaseStatePath(gitRoot: Path): Path {
    ZammPath(gitRoot) + ["base-state.json"]
  }

  function CurrentStatePath(worktree: Path): Path {
    ZammPath(worktree) + ["current-workflow-state.json"]
  }

  /** `baseState.worktrees[branch] = {branch, path, state: 'INITIAL'}`: the
      branch gets a fresh entry, replacing any earlier one, and every other
      branch keeps its entry. */
  function AddEntry(s: BaseState, branch: string, path: string): (r: BaseState)
    ensures branch in r.worktrees && r.worktrees[branch] == WorktreeInfo(branch, path, Initial)
    ensures forall b :: b != branch ==> (b in r.worktrees <==> b in s.worktrees)
    ensures forall b :: b != branch && b in s.worktrees ==> r.worktrees[b] == s.worktrees[b]
  {
    BaseState(s.worktrees[branch := WorktreeInfo(branch, path, Initial)])
  }

  /** `baseState.worktrees[branch].state = newState` for a registered branch:
      only that entry's state changes; its branch and path stay. */
  function SetState(s: BaseState, branch: string, newState: string): (r: BaseState)
    requires branch in s.worktrees
    ensures r.worktrees.Keys == s.worktrees.Keys
    ensures r.worktrees[branch].state == newState
    ensures r.worktrees[branch].branch == s.worktrees[branch].branch
    ensures r.worktrees[branch].path == s.worktrees[branch].path
    ensures forall b :: b in s.worktrees && b != branch ==> r.worktrees[b] == s.worktrees[b]
  {
    BaseState(s.worktrees[branch := s.worktrees[branch].(state := newState)])
  }

  /** The registry as stored, or why it cannot be read. */
  function ReadBaseState(t: Tree, json: Json, gitRoot: Path): Result<BaseState> {
    match ReadFile(t, BaseStatePath(gitRoot))
    case Err(e) => Err(e)
    case Ok(content) => json.decodeBase(content)
  }

  /** `getBaseState`: the registry, or `None` where reading or parsing
      fails. */
  function GetBaseState(t: Tree, json: Json, gitRoot: Path): (r: Option<BaseState>)
    ensures r.Some? <==> ReadBaseState(t, json, gitRoot).Ok?
  {
    match ReadBaseState(t, json, gitRoot)
    case Err(_) => None
    case Ok(s) => Some(s)
  }

  /** `BaseWorkflowService.initialize`: makes `.zamm` ready and creates an
      empty registry only when none exists. */
  method InitializeBase(t: Tree, json: Json, gitRoot: Path) returns (r: Result<()>, t': Tree)
    requires WellFormed(t) && Normal(gitRoot)
    ensures r.Ok? <==> MakeDirs(t, ZammPath(gitRoot)).Ok?
    ensures r.Ok? ==> ZammReady(t', gitRoot) && BaseStatePath(gitRoot) in t' && WellFormed(t')
    ensures r.Ok? && BaseStatePath(gitRoot) in t ==> t'[BaseStatePath(gitRoot)] == t[BaseStatePath(gitRoot)]
    ensures r.Ok? && BaseStatePath(gitRoot) !in t ==>
      t'[BaseStatePath(gitRoot)] == File(json.encodeBase(BaseState(map[])))
    ensures ZammReady(t, gitRoot) && BaseStatePath(gitRoot) in t ==> r == Ok(()) && t' == t
    ensures forall q :: q in t && q != GitignorePath(gitRoot) && q != BaseStatePath(gitRoot) ==>
      q in t' && t'[q] == t[q]
  {
    r, t' := EnsureZammDirectory(t, gitRoot);
    PreparedEffect(t, gitRoot);
    if r.Err? {
      return;
    }
    var statePath := BaseStatePath(gitRoot);
    if statePath !in t' {
      PlainName("base-state.json");
      Extend(ZammPath(gitRoot), "base-state.json");
      assert Dirname(statePath) == ZammPath(gitRoot);
      WriteFileEffect(t', statePath, json.encodeBase(BaseState(map[])));
      t' := WriteFile(t', statePath, json.encodeBase(BaseState(map[]))).value;
    }
  }

  /** `addWorktree`: registers `branch` at the real path of `worktreePath`
      with state `INITIAL`, and rewrites the registry. */
  method AddWorktree(t: Tree, cwd: Path, json: Json, gitRoot: Path, branch: string, worktreePath: string)
    returns (r: Result<()>, t': Tree)
    requires WellFormed(t)
    ensures r.Err? ==> t' == t
    ensures ReadBaseState(t, json, gitRoot).Err? ==>
      r == Err("Failed to read base state: " + ReadBaseState(t, json, gitRoot).msg)
    ensures r.Ok? ==> ReadBaseState(t, json, gitRoot).Ok? && Resolve(cwd, worktreePath) in t
    ensures r.Ok? ==>
      var s' := AddEntry(ReadBaseState(t, json, gitRoot).value, branch, ToString(Resolve(cwd, worktreePath)));
      t' == t[BaseStatePath(gitRoot) := File(json.encodeBase(s'))]
    ensures r.Ok? && RoundTrips(json) ==>
      GetBaseState(t', json, gitRoot)
        == Some(AddEntry(ReadBaseState(t, json, gitRoot).value, branch, ToString(Resolve(cwd, worktreePath))))
  {
    t' := t;
    var statePath := BaseStatePath(gitRoot);
    var read := ReadBaseState(t, json, gitRoot);
    if read.Err? {
      return Err("Failed to read base state: " + read.msg), t';
    }
    var abs := Resolve(cwd, worktreePath);
    if abs !in t {
      return Err("ENOENT: no such file or directory, realpath '" + worktreePath + "'"), t';
    }
    var baseState := AddEntry(read.value, branch, ToString(abs));
    t' := WriteFile(t, statePath, json.encodeBase(baseState)).value;
    return Ok(()), t';
  }

  /** `updateWorktreeState`: sets the state of a registered branch and
      rewrites the registry; for an unregistered branch it writes nothing. */
  method UpdateWorktreeState(t: Tree, json: Json, gitRoot: Path, branch: string, newState: string)
    returns (r: Result<()>, t': Tree)
    requires WellFormed(t)
    ensures r.Err? ==> t' == t
    ensures ReadBaseState(t, json, gitRoot).Err? ==>
      r == Err("Failed to read base state: " + ReadBaseState(t, json, gitRoot).msg)
    ensures ReadBaseState(t, json, gitRoot).Ok? ==> r == Ok(())
    ensures ReadBaseState(t, json, gitRoot).Ok? && branch !in ReadBaseState(t, json, gitRoot).value.worktrees ==>
      t' == t
    ensures var read := ReadBaseState(t, json, gitRoot);
      read.Ok? && branch in read.value.worktrees ==>
        t' == t[BaseStatePath(gitRoot) := File(json.encodeBase(SetState(read.value, branch, newState)))]
  {
    t' := t;
    var read := ReadBaseState(t, json, gitRoot);
    if read.Err? {
      return Err("Failed to read base state: " + read.msg), t';
    }
    var baseState := read.value;
    if branch in baseState.worktrees {
      baseState := SetState(baseState, branch, newState);
      t' := WriteFile(t, BaseStatePath(gitRoot), json.encodeBase(baseState)).value;
    }
    return Ok(()), t';
  }

  /** Registering a branch and then setting its state leaves every other
      branch as it was and the branch at its real path with the new state. */
  lemma AddThenUpdate(s: BaseState, branch: string, path: string, newState: string)
    ensures var r := SetState(AddEntry(s, branch, path), branch, newState);
      && r.worktrees[branch] == WorktreeInfo(branch, path, newState)
      && (forall b :: b != branch ==> (b in r.worktrees <==> b in s.worktrees))
      && (forall b :: b != branch && b in s.worktrees ==> r.worktrees[b] == s.worktrees[b])
  {
  }

  /** `WorktreeWorkflowService.initialize`: makes `.zamm` ready and always
      writes the marker with state `INITIAL`. */
  method InitializeWorktree(t: Tree, json: Json, worktree: Path) returns (r: Result<()>, t': Tree)
    requires WellFormed(t) && Normal(worktree)
    ensures r.Ok? <==> MakeDirs(t, ZammPath(worktree)).Ok? && !IsDir(t, CurrentStatePath(worktree))
    ensures r.Ok? ==> ZammReady(t', worktree) && CurrentStatePath(worktree) in t' && t'[CurrentStatePath(worktree)] == File(json.encodeCurrent(Initial))
    ensures r.Ok? && RoundTrips(json) ==> GetCurrentState(t', json, worktree) == Some(Initial)
    ensures forall q :: q in t && q != GitignorePath(worktree) && q != CurrentStatePath(worktree) ==>
      q in t' && t'[q] == t[q]
  {
    r, t' := EnsureZammDirectory(t, worktree);
    PreparedEffect(t, worktree);
    if r.Err? {
      return;
    }
    var statePath := CurrentStatePath(worktree);
    assert Dirname(statePath) == ZammPath(worktree);
    assert statePath != GitignorePath(worktree);
    assert IsDir(t', statePath) <==> IsDir(t, statePath) by {
      assert statePath !in Missing(t, ZammPath(worktree));
    }
    var written := WriteFile(t', statePath, json.encodeCurrent(Initial));
    if written.Err? {
      return Err(written.msg), t';
    }
    t' := written.value;
  }

  /** `updateState`: writes the marker unconditionally, without making
      `.zamm` first. */
  method UpdateState(t: Tree, json: Json, worktree: Path, newState: string) returns (r: Result<()>, t': Tree)
    ensures r.Ok? <==> IsDir(t, ZammPath(worktree)) && !IsDir(t, CurrentStatePath(worktree))
    ensures r.Err? ==> t' == t
    ensures r.Ok? ==> t' == t[CurrentStatePath(worktree) := File(json.encodeCurrent(newState))]
    ensures r.Ok? && RoundTrips(json) ==> GetCurrentState(t', json, worktree) == Some(newState)
  {
    var statePath := CurrentStatePath(worktree);
    assert Dirname(statePath) == ZammPath(worktree);
    var written := WriteFile(t, statePath, json.encodeCurrent(newState));
    if written.Err? {
      return Err(written.msg), t;
    }
    return Ok(()), written.value;
  }

  /** `getCurrentState`: the marker's state, or `None` where reading or
      parsing fails. */
  function GetCurrentState(t: Tree, json: Json, worktree: Path): (r: Option<string>)
    ensures r.Some? ==> IsFile(t, CurrentStatePath(worktree))
    ensures r.Some? ==> json.decodeCurrent(t[CurrentStatePath(worktree)].content) == Ok(r.value)
  {
    match ReadFile(t, CurrentStatePath(worktree))
    case Err(_) => None
    case Ok(content) =>
      match json.decodeCurrent(content)
      case Err(_) => None
      case Ok(st) => Some(st)
  }
}
