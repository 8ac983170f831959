/** The admin projects page: its four state slots and the handlers that update them.
    Each handler is given the server's answer (and, for delete, the user's answer
    to the confirmation dialog) and returns the request it sends. */
module AdminPortfolio {
  import opened Wrappers
  import opened ProjectList
  import Technologies

  const LoadError: string := "Failed to load projects. Please try again."
  const AddError: string := "Failed to add project. Please try again."
  const DeleteError: string := "Failed to delete project. Please try again."
  const UpdateError: string := "Failed to update project. Please try again."

  /** The one outbound request a handler issues to the projects collection. */
  datatype Request =
    | List                                   // GET /api/projects
    | Create(body: Project)                  // POST /api/projects
    | Remove(id: string)                     // DELETE /api/projects/{id}
    | SetPublished(id: string, published: bool)  // PATCH /api/projects/{id}

  class AdminProjectsPage {
    var projects: seq<Project>
    var newProject: Project
    var isLoading: bool
    var error: Option<string>

    /** The text the technologies input shows for the current draft. When the
        stored list is non-empty and no token contains ", ", splitting that text
        again gives back the stored list. */
    function TechnologiesText(): (r: string)
      reads this
      ensures |newProject.technologies| >= 1 &&
        (forall k :: 0 <= k < |newProject.technologies| ==> !Technologies.ContainsSep(newProject.technologies[k]))
        ==> Technologies.Split(r) == newProject.technologies
    {
      var t := newProject.technologies;
      assert |t| >= 1 && (forall k :: 0 <= k < |t| ==> !Technologies.ContainsSep(t[k]))
        ==> Technologies.Split(Technologies.Join(t)) == t by {
        if |t| >= 1 && (forall k :: 0 <= k < |t| ==> !Technologies.ContainsSep(t[k])) {
          Technologies.SplitJoin(t);
        }
      }
      Technologies.Join(t)
    }

    /** The page as first mounted: no projects, an empty draft, not loading, no error. */
    constructor ()
      ensures projects == [] && newProject == EmptyDraft
      ensures !isLoading && error == None
    {
      projects := [];
      newProject := EmptyDraft;
      isLoading := false;
      error := None;
    }

    /** Loads the list. A success replaces it wholesale and clears the error;
        a failure keeps the old list and sets the load message. Loading ends either way. */
    method FetchProjects(response: Result<seq<Project>>) returns (sent: Request)
      modifies this
      ensures sent == List
      ensures !isLoading && newProject == old(newProject)
      ensures response.Ok? ==> projects == response.value && error == None
      ensures response.Failure? ==> projects == old(projects) && error == Some(LoadError)
    {
      isLoading := true;
      sent := List;
      match response {
        case Ok(fetched) =>
          projects := fetched;
          error := None;
        case Failure =>
          error := Some(LoadError);
      }
      isLoading := false;
    }

    /** Posts the draft. A success appends the server's record and resets the
        draft, leaving any earlier error shown; a failure keeps list and draft
        and sets the add message. */
    method AddProject(response: Result<Project>) returns (sent: Request)
      modifies this
      ensures sent == Create(old(newProject))
      ensures isLoading == old(isLoading)
      ensures response.Ok? ==>
        projects == old(projects) + [response.value] && newProject == EmptyDraft && error == old(error)
      ensures response.Failure? ==>
        projects == old(projects) && newProject == old(newProject) && error == Some(AddError)
    {
      sent := Create(newProject);
      match response {
        case Ok(created) =>
          projects := projects + [created];
          newProject := EmptyDraft;
        case Failure =>
          error := Some(AddError);
      }
    }

    /** Deletes `id` once the user confirms. A success drops every entry with
        that id; a failure sets the delete message; without confirmation nothing
        is sent and nothing changes. */
    method DeleteProject(id: string, confirmed: bool, response: Result<()>) returns (sent: Option<Request>)
      modifies this
      ensures sent == if confirmed then Some(Remove(id)) else None
      ensures newProject == old(newProject) && isLoading == old(isLoading)
      ensures !confirmed ==> projects == old(projects) && error == old(error)
      ensures confirmed && response.Ok? ==>
        projects == WithoutId(old(projects), id) && error == old(error)
      ensures confirmed && response.Failure? ==>
        projects == old(projects) && error == Some(DeleteError)
    {
      sent := None;
      if confirmed {
        sent := Some(Remove(id));
        match response {
          case Ok(_) =>
            projects := WithoutId(projects, id);
          case Failure =>
            error := Some(DeleteError);
        }
      }
    }

    /** Asks the server to flip `published` for `id`. A success writes the
        server's `published` into every entry with that id; a failure sets the
        update message. */
    method TogglePublish(id: string, published: bool, response: Result<Project>) returns (sent: Request)
      modifies this
      ensures sent == SetPublished(id, !published)
      ensures newProject == old(newProject) && isLoading == old(isLoading)
      ensures response.Ok? ==>
        projects == WithPublished(old(projects), id, response.value.published) && error == old(error)
      ensures response.Failure? ==>
        projects == old(projects) && error == Some(UpdateError)
    {
      sent := SetPublished(id, !published);
      match response {
        case Ok(updated) =>
          projects := WithPublished(projects, id, updated.published);
        case Failure =>
          error := Some(UpdateError);
      }
    }

    /** Editing the title input replaces only the draft's title. */
    method SetTitle(value: string)
      modifies this
      ensures newProject == old(newProject).(title := value)
      ensures projects == old(projects) && isLoading == old(isLoading) && error == old(error)
    {
      newProject := newProject.(title := value);
    }

    /** Editing the description input replaces only the draft's description. */
    method SetDescription(value: string)
      modifies this
      ensures newProject == old(newProject).(description := value)
      ensures projects == old(projects) && isLoading == old(isLoading) && error == old(error)
    {
      newProject := newProject.(description := value);
    }

    /** Editing the details input replaces only the draft's details. */
    method SetDetails(value: string)
      modifies this
      ensures newProject == old(newProject).(details := value)
      ensures projects == old(projects) && isLoading == old(isLoading) && error == old(error)
    {
      newProject := newProject.(details := value);
    }

    /** Editing the image URL input replaces only the draft's image. */
    method SetImage(value: string)
      modifies this
      ensures newProject == old(newProject).(image := value)
      ensures projects == old(projects) && isLoading == old(isLoading) && error == old(error)
    {
      newProject := newProject.(image := value);
    }

    /** Editing the technologies input stores the split text; the input then
        shows exactly what was typed, and no stored token contains ", ". */
    method SetTechnologies(text: string)
      modifies this
      ensures newProject == old(newProject).(technologies := Technologies.Split(text))
      ensures TechnologiesText() == text
      ensures forall k :: 0 <= k < |newProject.technologies| ==>
        !Technologies.ContainsSep(newProject.technologies[k])
      ensures projects == old(projects) && isLoading == old(isLoading) && error == old(error)
    {
      newProject := newProject.(technologies := Technologies.Split(text));
      Technologies.JoinSplit(text);
      Technologies.SplitTokensWithoutSep(text);
    }
  }

  /** Loading one record shows exactly that record and no error. */
  method ScenarioLoad() {
    var page := new AdminProjectsPage();
    var one := EmptyDraft.(id := "1");
    var _ := page.FetchProjects(Ok([one]));
    assert page.projects == [one] && page.error == None;
  }

  /** Typing "React, Go" stores two technologies; adding posts the draft,
      appends the server's record and resets the form. */
  method ScenarioAdd(one: Project, nine: Project) {
    var page := new AdminProjectsPage();
    var _ := page.FetchProjects(Ok([one]));
    page.SetTitle("X");
    page.SetTechnologies("React, Go");
    var sent := page.AddProject(Ok(nine));
    assert sent.body.title == "X" && sent.body.technologies == Technologies.Split("React, Go");
    assert page.projects == [one, nine] && page.newProject == EmptyDraft;
  }

  /** A failed delete keeps the record and shows the delete message. */
  method ScenarioDeleteFails(one: Project) {
    var page := new AdminProjectsPage();
    var _ := page.FetchProjects(Ok([one]));
    var _ := page.DeleteProject(one.id, true, Failure);
    assert page.projects == [one] && page.error == Some(DeleteError);
  }
}
