/**
 * The per-host rendering task (py_netauto/nornir_tasks/render_config.py):
 * the host's role picks a Jinja2 template, and a role without a template
 * skips the host without an error.
 */
module RenderConfig {
  import opened Wrappers
  import Inventory

  /** The fixed role-to-template table. */
  const JinjaTemplates: map<string, string> :=
    map["leaf" := "leaves.j2", "spine" := "spines.j2", "host" := "hosts.j2", "default" := "defaults.j2"]

  /** The role a host renders as: its `role` attribute, or "default" when it has none. */
  function DeviceRole(host: Inventory.Host): (role: string)
    ensures "role" !in host.attrs ==> role == "default"
    ensures "role" in host.attrs ==> role == host.attrs["role"]
  {
    if "role" in host.attrs then host.attrs["role"] else "default"
  }

  /** The one sub-task a mapped host runs: the template file, looked up under the templates folder. */
  datatype SubTask = TemplateFile(template: string, path: string)

  /**
   * render_configs: a host whose role has a template runs exactly one
   * template sub-task with that file; any other host runs none.
   */
  function RenderConfigs(host: Inventory.Host, templatesPath: string): (subtasks: seq<SubTask>)
    ensures |subtasks| <= 1
    ensures subtasks == [] <==> DeviceRole(host) !in JinjaTemplates
    ensures subtasks != [] ==> subtasks[0] == TemplateFile(JinjaTemplates[DeviceRole(host)], templatesPath)
  {
    var role := DeviceRole(host);
    if role in JinjaTemplates && JinjaTemplates[role] != "" then
      [TemplateFile(JinjaTemplates[role], templatesPath)]
    else
      []
  }

  /** A host without a role renders the default template. */
  lemma RolelessHostUsesDefaults(host: Inventory.Host, templatesPath: string)
    requires "role" !in host.attrs
    ensures RenderConfigs(host, templatesPath) == [TemplateFile("defaults.j2", templatesPath)]
  {
  }

  /** The four roles and only they have templates, and no two roles share one. */
  lemma TemplatesAreDistinct(r1: string, r2: string)
    requires r1 in JinjaTemplates && r2 in JinjaTemplates && r1 != r2
    ensures JinjaTemplates[r1] != JinjaTemplates[r2]
    ensures r1 in {"leaf", "spine", "host", "default"}
  {
  }
}
