/** The project form: title, description and an optional logo, sent on
    only when the title is not blank. */
module ProjectForm {
  import opened Types
  import opened Strings
  import opened Lists
  import opened App

  /** The fields of a stored project, as the form is opened on them. */
  function DataOf(p: Project): (r: ProjectData)
    ensures r.title == p.title && r.description == p.description && r.logo == p.logo
  {
    ProjectData(p.title, p.description, p.logo)
  }

  /** A logo as the form holds it: an empty image text counts as none. */
  function LogoOf(logo: Option<string>): (r: Option<string>)
    ensures r.None? <==> logo.None? || logo.value == ""
    ensures r.Some? ==> r == logo
  {
    if logo.Some? && logo.value != "" then logo else None
  }

  /** What the form sends when submitted: nothing for a blank title,
      otherwise the three fields as they are. */
  function Payload(title: string, description: string, logo: Option<string>): (r: Option<ProjectData>)
    ensures r.Some? <==> !IsBlank(title)
    ensures r.Some? ==> r.value.title == title && r.value.description == description && r.value.logo == logo
  {
    TrimEmptyIffBlank(title);
    if Trim(title) != "" then Some(ProjectData(title, description, logo)) else None
  }

  /** The submit button reads "Save Changes" when the form was opened on
      data with a title, "Save Project" otherwise. */
  function SubmitLabel(initial: Option<ProjectData>): (r: string)
    ensures r == "Save Changes" <==> initial.Some? && initial.value.title != ""
    ensures r == "Save Project" <==> !(initial.Some? && initial.value.title != "")
  {
    if initial.Some? && initial.value.title != "" then "Save Changes" else "Save Project"
  }

  /** Opening the form on the selected project and submitting it untouched
      leaves the store's projects as they were (their ids being unique),
      unless the title is blank
      (nothing is sent) or the logo is the empty text (it comes back as
      none). */
  lemma UntouchedEditKeepsProjects(projects: seq<Project>, k: nat)
    requires Unique(ProjectId, projects)
    requires k < |projects| && !IsBlank(projects[k].title) && projects[k].logo != Some("")
    ensures var p := projects[k];
            var r := Payload(p.title, p.description, LogoOf(p.logo));
            r.Some? && UpdateSelected(projects, Some(p.id), r.value) == projects
  {
    var p := projects[k];
    var data := Payload(p.title, p.description, LogoOf(p.logo)).value;
    assert LogoOf(p.logo) == p.logo;
    UpdateSelectedSpec(projects, Some(p.id), data);
    var u := UpdateSelected(projects, Some(p.id), data);
    assert forall i :: 0 <= i < |u| ==> u[i] == projects[i] by {
      forall i | 0 <= i < |u| ensures u[i] == projects[i] {
        if projects[i].id == p.id {
          assert ProjectId(projects[i]) == ProjectId(projects[k]);
        }
      }
    }
  }

  class ProjectFormState {
    var title: string
    var description: string
    var logo: Option<string>

    /** The given data, with an empty logo as none; or all empty. */
    constructor(initial: Option<ProjectData>)
      ensures initial.Some? ==> title == initial.value.title && description == initial.value.description &&
                                logo == LogoOf(initial.value.logo)
      ensures initial.None? ==> title == "" && description == "" && logo == None
    {
      if initial.Some? {
        title := initial.value.title;
        description := initial.value.description;
        logo := LogoOf(initial.value.logo);
      } else {
        title := "";
        description := "";
        logo := None;
      }
    }

    method SetTitle(t: string)
      modifies this
      ensures title == t && description == old(description) && logo == old(logo)
    {
      title := t;
    }

    method SetDescription(d: string)
      modifies this
      ensures description == d && title == old(title) && logo == old(logo)
    {
      description := d;
    }

    /** A file was read: its data URL becomes the logo. */
    method SetLogo(dataUrl: string)
      modifies this
      ensures logo == Some(dataUrl) && title == old(title) && description == old(description)
    {
      logo := Some(dataUrl);
    }

    method RemoveLogo()
      modifies this
      ensures logo == None && title == old(title) && description == old(description)
    {
      logo := None;
    }

    /** Submitting sends the fields only when the title has a character
        other than white space. */
    method Submit() returns (r: Option<ProjectData>)
      ensures r.Some? <==> !IsBlank(title)
      ensures r == Payload(title, description, logo)
    {
      r := Payload(title, description, logo);
    }
  }
}
