/** The already-decoded elements of the controller's listing responses (the
    `response` array of each GET), reduced to the fields the cleanup reads. */
module Records {

  datatype Option<T> = None | Some(value: T)

  /** An element of the sites listing. `nameHierarchy` is `None` when the
      field is absent or null; `id` and `type` are always read. */
  datatype SiteRecord = SiteRecord(nameHierarchy: Option<string>, id: string, siteType: string)

  /** The id and type the sites dictionary stores per hierarchy. */
  datatype SiteValue = SiteValue(id: string, siteType: string)

  /** An element of a pool listing: its name (`groupName` for a reserved
      sub-pool, `ipPoolName` for a global pool) and its `id`. */
  datatype PoolRecord = PoolRecord(name: string, id: string)
}
